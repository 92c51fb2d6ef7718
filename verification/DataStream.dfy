/**
 One data stream of the agent: SDK callbacks, the setup thread, the two reader
 threads and the cleanup thread, as steps on its record. A step is one access to
 shared state or one call out. SDK callbacks run one at a time and each future
 resolves once; memory is sequentially consistent and allocation succeeds.
 */
module DataStream {
  import opened Bytes

  /** Where an SDK callback working on the stream stands. */
  datatype SdkPc = Off | Cas | Issue | SetFlag | Mark | Unlink | SpawnCleanup

  datatype SetupPc =
    | NotSetUp | Check | Fork | SpawnPty | FlagPty | SpawnNet | FlagNet | SetupCas | SetupIssue | SetupEnded

  /** Aborting: a write that timed out, its future still to resolve. */
  datatype ReaderPc = NotRead | Loop | Work | Aborting | ReaderMark | ReaderCas | ReaderIssue | ReaderEnded

  datatype CleanupPc = NoCleanup | JoinSetup | JoinPty | JoinNet | FreeRecord | Freed | Leaked

  /** The future of the stream's close. */
  datatype Future = NotIssued | Registered | Resolved

  datatype Stream = Stream(
    accepted: bool,
    closing: bool,
    closeStarted: bool,
    close: Future,
    setupStarted: bool,
    ptyStarted: bool,
    netStarted: bool,
    linked: bool,
    sdk: SdkPc,
    setup: SetupPc,
    pty: ReaderPc,
    net: ReaderPc,
    cleanup: CleanupPc,
    cleanups: nat)

  /** As stream_callback leaves it: on the list, its accept under way. */
  const NEW := Stream(false, false, false, NotIssued, false, false, false, true,
    Off, NotSetUp, NotRead, NotRead, NoCleanup, 0)

  datatype AcceptResult = Failed | Rejected | Spawned

  /** How one read and write of the PTY reader ends; only its writes have a timeout. */
  datatype Io = Finished | Failure | TimedOut

  datatype Act =
    | Accepted(result: AcceptResult)
    | Closed
    | SdkStep(ok: bool)
    | SetupStep(ok: bool)
    | PtyStep(io: Io)
    | NetStep(ok: bool)
    | CleanupStep
    | NoteClosing

  predicate Live(p: ReaderPc) { p != NotRead && p != ReaderEnded }

  predicate SetupLive(p: SetupPc) { p != NotSetUp && p != SetupEnded }

  /** A join waits for its thread, if the thread was recorded as started. */
  predicate CanClean(st: Stream) {
    match st.cleanup
    case JoinSetup => st.setupStarted ==> !SetupLive(st.setup)
    case JoinPty => st.ptyStarted ==> !Live(st.pty)
    case JoinNet => st.netStarted ==> !Live(st.net)
    case FreeRecord => true
    case _ => false
  }

  predicate Enabled(st: Stream, a: Act) {
    match a
    case Accepted(_) => !st.accepted
    case Closed => st.close == Registered
    case SdkStep(_) => st.sdk != Off
    case SetupStep(_) => SetupLive(st.setup)
    case PtyStep(_) => Live(st.pty)
    case NetStep(_) => Live(st.net)
    case CleanupStep => CanClean(st)
    case NoteClosing => st.linked
  }

  /** stream_accepted, start_stream_close_once and cleanup_active_stream on the SDK's thread. */
  function SdkNext(st: Stream, ok: bool): Stream {
    match st.sdk
    case Off => st
    case Cas => if st.closeStarted then st.(sdk := Off) else st.(closeStarted := true, sdk := Issue)
    case Issue => st.(close := Registered, sdk := Off)
    case SetFlag => st.(setupStarted := true, sdk := Off)
    case Mark => st.(closing := true, sdk := Unlink)
    case Unlink => st.(linked := false, sdk := SpawnCleanup)
    case SpawnCleanup => st.(cleanup := if ok then JoinSetup else Leaked, sdk := Off)
  }

  /** stream_setup_thread: where it goes next, and what it does to the record. */
  function SetupGoes(st: Stream, ok: bool): SetupPc {
    match st.setup
    case Check => if st.closing then SetupEnded else Fork
    case Fork => if ok then SpawnPty else SetupCas
    case SpawnPty => if ok then FlagPty else SetupCas
    case FlagPty => SpawnNet
    case SpawnNet => if ok then FlagNet else SetupCas
    case SetupCas => if st.closeStarted then SetupEnded else SetupIssue
    case FlagNet | SetupIssue => SetupEnded
    case _ => st.setup
  }

  function SetupEffect(st: Stream, ok: bool): (r: Stream)
    ensures r.linked == st.linked && r.sdk == st.sdk && r.accepted == st.accepted && r.cleanups == st.cleanups
    ensures r.cleanup == st.cleanup
    ensures r.pty == if st.setup.SpawnPty? && ok then Loop else st.pty
    ensures r.net == if st.setup.SpawnNet? && ok then Loop else st.net
  {
    match st.setup
    case SpawnPty => if ok then st.(pty := Loop) else st
    case FlagPty => st.(ptyStarted := true)
    case SpawnNet => if ok then st.(net := Loop) else st.(closing := true)
    case FlagNet => st.(netStarted := true)
    case SetupCas => st.(closeStarted := true)
    case SetupIssue => st.(close := Registered)
    case _ => st
  }

  function SetupNext(st: Stream, ok: bool): Stream { SetupEffect(st, ok).(setup := SetupGoes(st, ok)) }

  /** pty_reader_thread and stream_reader_thread; work is one read and one write. */
  function ReaderNext(p: ReaderPc, st: Stream, io: Io): ReaderPc {
    match p
    case Loop => if st.closing then ReaderMark else Work
    case Work => if io.Finished? then Loop else if io.Failure? then ReaderMark else Aborting
    case Aborting => if io.Finished? then Loop else ReaderMark
    case ReaderMark => ReaderCas
    case ReaderCas => if st.closeStarted then ReaderEnded else ReaderIssue
    case ReaderIssue => ReaderEnded
    case _ => p
  }

  /** A write that times out sets closing at once, before the loop is left. */
  function ReaderEffect(p: ReaderPc, st: Stream, io: Io): (r: Stream)
    ensures r.linked == st.linked && r.sdk == st.sdk && r.accepted == st.accepted && r.cleanups == st.cleanups
  {
    match p
    case Work => if io.TimedOut? then st.(closing := true) else st
    case ReaderMark => st.(closing := true)
    case ReaderCas => st.(closeStarted := true)
    case ReaderIssue => st.(close := Registered)
    case _ => st
  }

  function NetIo(ok: bool): Io { if ok then Finished else Failure }

  /** cleanup_thread_func */
  function CleanupNext(st: Stream): (r: Stream)
    ensures r.linked == st.linked && r.sdk == st.sdk && r.accepted == st.accepted && r.cleanups == st.cleanups
  {
    match st.cleanup
    case JoinSetup => st.(setupStarted := false, cleanup := JoinPty)
    case JoinPty => st.(ptyStarted := false, cleanup := JoinNet)
    case JoinNet => st.(netStarted := false, cleanup := FreeRecord)
    case FreeRecord => st.(cleanup := Freed)
    case _ => st
  }

  function Next(st: Stream, a: Act): Stream {
    match a
    case Accepted(Failed) => st.(accepted := true, sdk := Mark, cleanups := st.cleanups + 1)
    case Accepted(Rejected) => st.(accepted := true, sdk := Cas)
    case Accepted(Spawned) => st.(accepted := true, setup := Check, sdk := SetFlag)
    case Closed => st.(close := Resolved, sdk := Mark, cleanups := st.cleanups + 1)
    case SdkStep(ok) => SdkNext(st, ok)
    case SetupStep(ok) => SetupNext(st, ok)
    case PtyStep(io) => ReaderEffect(st.pty, st, io).(pty := ReaderNext(st.pty, st, io))
    case NetStep(ok) => ReaderEffect(st.net, st, NetIo(ok)).(net := ReaderNext(st.net, st, NetIo(ok)))
    case CleanupStep => CleanupNext(st)
    case NoteClosing => st.(closing := true)
  }

  // ----- the invariant

  /** The threads about to issue the close: winners of the exchange on closeStarted. */
  function Issuers(st: Stream): nat {
    One(st.sdk == Issue) + One(st.setup == SetupIssue) + One(st.pty == ReaderIssue) + One(st.net == ReaderIssue)
  }

  /** The cleanup has begun. */
  predicate Cleaning(st: Stream) {
    st.sdk == Mark || st.sdk == Unlink || st.sdk == SpawnCleanup || st.cleanup != NoCleanup
  }

  /** One close, by one winner, and one cleanup, by the close or by a failed accept. */
  predicate CloseInv(st: Stream) {
    && Issuers(st) + One(st.close != NotIssued) == One(st.closeStarted)
    && st.cleanups == One(Cleaning(st))
    && (st.close == Resolved ==> Cleaning(st))
    && (Cleaning(st) ==> st.accepted && (st.close == Resolved || (st.setup == NotSetUp && !st.closeStarted)))
    && (!st.accepted ==> st.sdk == Off && st.setup == NotSetUp && !st.closeStarted)
  }

  predicate BeforePty(p: SetupPc) { p.NotSetUp? || p.Check? || p.Fork? || p.SpawnPty? }

  predicate BeforeNet(p: SetupPc) { BeforePty(p) || p.FlagPty? || p.SpawnNet? }

  /** A running thread is recorded as started, or is about to be by the thread that started it. */
  predicate ThreadInv(st: Stream) {
    && (SetupLive(st.setup) ==> st.setupStarted || st.sdk == SetFlag)
    && (Live(st.pty) ==> st.ptyStarted || st.setup == FlagPty)
    && (Live(st.net) ==> st.netStarted || st.setup == FlagNet)
    && (BeforePty(st.setup) ==> st.pty == NotRead)
    && (BeforeNet(st.setup) ==> st.net == NotRead)
    && (st.sdk == Cas || st.sdk == Issue ==> st.setup == NotSetUp)
    && (st.sdk == SetFlag ==> st.setup != NotSetUp)
  }

  predicate AllJoined(p: CleanupPc) { p.FreeRecord? || p.Freed? }

  predicate PtyJoined(p: CleanupPc) { AllJoined(p) || p.JoinNet? }

  predicate SetupJoined(p: CleanupPc) { PtyJoined(p) || p.JoinPty? }

  /** What the cleanup thread has already waited for. */
  predicate CleanupInv(st: Stream) {
    && (st.cleanup != NoCleanup ==> st.sdk == Off && st.closing && !st.linked)
    && (st.sdk == SpawnCleanup ==> st.closing && !st.linked)
    && (st.sdk == Unlink ==> st.closing)
    && (!st.linked ==> st.sdk == SpawnCleanup || st.cleanup != NoCleanup)
    && (SetupJoined(st.cleanup) ==> !SetupLive(st.setup))
    && (PtyJoined(st.cleanup) ==> !Live(st.pty))
    && (AllJoined(st.cleanup) ==> !Live(st.net))
  }

  predicate Inv(st: Stream) { CloseInv(st) && ThreadInv(st) && CleanupInv(st) }

  /** SDK callbacks are serialised: a new one starts only when none is at work. */
  predicate Serial(st: Stream, a: Act) { a.Accepted? || a.Closed? ==> st.sdk == Off }

  lemma AcceptedKeeps(st: Stream, result: AcceptResult)
    requires Inv(st) && !st.accepted
    ensures Inv(Next(st, Accepted(result)))
  {
  }

  lemma ClosedKeeps(st: Stream)
    requires Inv(st) && st.close == Registered && st.sdk == Off
    ensures Inv(Next(st, Closed))
  {
  }

  lemma SdkCloseKeeps(st: Stream, ok: bool)
    requires Inv(st) && (st.sdk.Cas? || st.sdk.Issue? || st.sdk.SetFlag?)
    ensures Inv(SdkNext(st, ok))
  {
  }

  lemma SdkCleanupKeeps(st: Stream, ok: bool)
    requires Inv(st) && (st.sdk.Mark? || st.sdk.Unlink? || st.sdk.SpawnCleanup?)
    ensures Inv(SdkNext(st, ok))
  {
  }

  lemma SetupStartKeeps(st: Stream, ok: bool)
    requires Inv(st) && (st.setup.Check? || st.setup.Fork?)
    ensures Inv(SetupNext(st, ok))
  {
  }

  lemma SetupPtyKeeps(st: Stream, ok: bool)
    requires Inv(st) && (st.setup.SpawnPty? || st.setup.FlagPty?)
    ensures Inv(SetupNext(st, ok))
  {
  }

  lemma SetupNetKeeps(st: Stream, ok: bool)
    requires Inv(st) && (st.setup.SpawnNet? || st.setup.FlagNet?)
    ensures Inv(SetupNext(st, ok))
  {
  }

  lemma SetupCloseKeeps(st: Stream, ok: bool)
    requires Inv(st) && (st.setup.SetupCas? || st.setup.SetupIssue?)
    ensures Inv(SetupNext(st, ok))
  {
  }

  lemma SetupKeeps(st: Stream, ok: bool)
    requires Inv(st) && SetupLive(st.setup)
    ensures Inv(SetupNext(st, ok))
  {
    match st.setup
    case Check => SetupStartKeeps(st, ok);
    case Fork => SetupStartKeeps(st, ok);
    case SpawnPty => SetupPtyKeeps(st, ok);
    case FlagPty => SetupPtyKeeps(st, ok);
    case SpawnNet => SetupNetKeeps(st, ok);
    case FlagNet => SetupNetKeeps(st, ok);
    case SetupCas => SetupCloseKeeps(st, ok);
    case SetupIssue => SetupCloseKeeps(st, ok);
  }

  lemma PtyReadKeeps(st: Stream, io: Io)
    requires Inv(st) && (st.pty.Loop? || st.pty.Work? || st.pty.Aborting? || st.pty.ReaderMark?)
    ensures Inv(Next(st, PtyStep(io)))
  {
  }

  lemma PtyCloseKeeps(st: Stream, io: Io)
    requires Inv(st) && (st.pty.ReaderCas? || st.pty.ReaderIssue?)
    ensures Inv(Next(st, PtyStep(io)))
  {
  }

  lemma NetReadKeeps(st: Stream, ok: bool)
    requires Inv(st) && (st.net.Loop? || st.net.Work? || st.net.Aborting? || st.net.ReaderMark?)
    ensures Inv(Next(st, NetStep(ok)))
  {
  }

  lemma NetCloseKeeps(st: Stream, ok: bool)
    requires Inv(st) && (st.net.ReaderCas? || st.net.ReaderIssue?)
    ensures Inv(Next(st, NetStep(ok)))
  {
  }

  lemma CleanupKeeps(st: Stream)
    requires Inv(st) && CanClean(st)
    ensures Inv(CleanupNext(st))
  {
  }

  lemma SdkKeeps(st: Stream, ok: bool)
    requires Inv(st) && st.sdk != Off
    ensures Inv(SdkNext(st, ok))
  {
    if st.sdk.Cas? || st.sdk.Issue? || st.sdk.SetFlag? {
      SdkCloseKeeps(st, ok);
    } else {
      SdkCleanupKeeps(st, ok);
    }
  }

  lemma PtyKeeps(st: Stream, io: Io)
    requires Inv(st) && Live(st.pty)
    ensures Inv(Next(st, PtyStep(io)))
  {
    if st.pty.ReaderCas? || st.pty.ReaderIssue? {
      PtyCloseKeeps(st, io);
    } else {
      PtyReadKeeps(st, io);
    }
  }

  lemma NetKeeps(st: Stream, ok: bool)
    requires Inv(st) && Live(st.net)
    ensures Inv(Next(st, NetStep(ok)))
  {
    if st.net.ReaderCas? || st.net.ReaderIssue? {
      NetCloseKeeps(st, ok);
    } else {
      NetReadKeeps(st, ok);
    }
  }

  lemma NextKeeps(st: Stream, a: Act)
    requires Inv(st) && Enabled(st, a) && Serial(st, a)
    ensures Inv(Next(st, a))
  {
    match a
    case Accepted(result) => AcceptedKeeps(st, result);
    case Closed => ClosedKeeps(st);
    case SdkStep(ok) => SdkKeeps(st, ok);
    case SetupStep(ok) => SetupKeeps(st, ok);
    case PtyStep(io) => PtyKeeps(st, io);
    case NetStep(ok) => NetKeeps(st, ok);
    case CleanupStep => CleanupKeeps(st);
    case NoteClosing =>
  }

  /** Once the record is freed, nothing of any thread or callback touches it. */
  lemma NothingAfterFree(st: Stream, a: Act)
    requires Inv(st) && st.cleanup == Freed
    ensures !Enabled(st, a)
  {
  }

  // ----- who closes the stream, and why

  /** A reader does not end, and a setup or an accept does not fail, without the close having been won by someone. */
  predicate EndedInv(st: Stream) {
    && (st.pty == ReaderEnded || st.net == ReaderEnded ==> st.closeStarted)
    && (st.setup == FlagNet ==> st.net != NotRead)
    && (st.setup == SetupEnded && st.net == NotRead ==> st.closeStarted || st.closing)
    && (st.accepted && st.setup == NotSetUp && st.sdk == Off && st.cleanup == NoCleanup ==> st.closeStarted)
  }

  lemma ReaderEndsClosed(st: Stream, a: Act)
    requires Inv(st) && EndedInv(st) && Enabled(st, a) && (a.PtyStep? || a.NetStep?)
    ensures EndedInv(Next(st, a))
  {
  }

  lemma SetupEndsClosed(st: Stream, ok: bool)
    requires Inv(st) && EndedInv(st) && SetupLive(st.setup)
    ensures EndedInv(SetupNext(st, ok))
  {
  }

  lemma SdkEndsClosed(st: Stream, ok: bool)
    requires Inv(st) && EndedInv(st) && st.sdk != Off
    ensures EndedInv(SdkNext(st, ok))
  {
  }

  lemma OthersEndClosed(st: Stream, a: Act)
    requires Inv(st) && EndedInv(st) && Enabled(st, a) && Serial(st, a)
    requires a.Accepted? || a.Closed? || a.CleanupStep? || a.NoteClosing?
    ensures EndedInv(Next(st, a))
  {
  }

  /** From a new stream on, every step keeps that. */
  lemma EndedKeeps(st: Stream, a: Act)
    requires Inv(st) && EndedInv(st) && Enabled(st, a) && Serial(st, a)
    ensures EndedInv(NEW) && EndedInv(Next(st, a))
  {
    match a
    case PtyStep(_) => ReaderEndsClosed(st, a);
    case NetStep(_) => ReaderEndsClosed(st, a);
    case SetupStep(ok) => SetupEndsClosed(st, ok);
    case SdkStep(ok) => SdkEndsClosed(st, ok);
    case _ => OthersEndClosed(st, a);
  }

  /**
   So a stream is never left behind: when a reader has ended and no thread is about to
   issue the close, the close is registered, or has resolved and begun the cleanup.
   */
  lemma EndedStreamIsClosed(st: Stream)
    requires Inv(st) && EndedInv(st) && (st.pty == ReaderEnded || st.net == ReaderEnded)
    requires st.sdk != Issue && st.setup != SetupIssue && st.pty != ReaderIssue && st.net != ReaderIssue
    ensures st.close == Registered || (st.close == Resolved && Cleaning(st) && st.cleanups == 1)
  {
  }

  /** Nothing has failed, and nobody has marked the stream. */
  predicate Harmless(a: Act) {
    match a
    case Accepted(result) => result == Spawned
    case SetupStep(ok) => ok
    case PtyStep(io) => io == Finished
    case NetStep(ok) => ok
    case SdkStep(_) => true
    case _ => false
  }

  predicate Open(st: Stream) {
    && !st.closing && !st.closeStarted && st.close == NotIssued && st.linked && st.cleanup == NoCleanup
    && (st.sdk == Off || st.sdk == SetFlag)
    && (st.pty.NotRead? || st.pty.Loop? || st.pty.Work?) && (st.net.NotRead? || st.net.Loop? || st.net.Work?)
    && st.setup != SetupCas && st.setup != SetupIssue
    && (st.setup == SetupEnded ==> Live(st.pty) && Live(st.net))
    && (st.setup == FlagPty || st.setup == SpawnNet || st.setup == FlagNet ==> Live(st.pty))
    && (st.setup == FlagNet ==> Live(st.net))
  }

  lemma ReaderKeepsOpen(st: Stream, a: Act)
    requires Open(st) && Enabled(st, a) && (a == PtyStep(Finished) || a == NetStep(true))
    ensures Open(Next(st, a))
  {
  }

  lemma SetupKeepsOpen(st: Stream, a: Act)
    requires Open(st) && Enabled(st, a) && (a == SetupStep(true) || a == Accepted(Spawned) || a.SdkStep?)
    ensures Open(Next(st, a))
  {
  }

  /** Without a failure a stream stays open, both its readers running once it has been set up. */
  lemma HarmlessKeepsOpen(st: Stream, a: Act)
    requires Open(st) && Enabled(st, a) && Harmless(a)
    ensures Open(NEW) && Open(Next(st, a))
  {
    if a.PtyStep? || a.NetStep? {
      ReaderKeepsOpen(st, a);
    } else {
      SetupKeepsOpen(st, a);
    }
  }

  // ----- a stream whose cleanup thread runs is freed

  function ReaderDistance(p: ReaderPc): nat {
    match p
    case NotRead | ReaderEnded => 0
    case ReaderIssue => 1
    case ReaderCas => 2
    case ReaderMark => 3
    case Loop => 4
    case Aborting => 5
    case Work => 6
  }

  function SetupDistance(p: SetupPc): nat {
    match p
    case NotSetUp | SetupEnded => 0
    case SetupIssue | FlagNet => 1
    case SetupCas => 2
    case SpawnNet => 9
    case FlagPty => 10
    case SpawnPty => 17
    case Fork => 18
    case Check => 19
  }

  function Distance(st: Stream): nat {
    ReaderDistance(st.pty) + ReaderDistance(st.net) + SetupDistance(st.setup) +
    match st.cleanup
    case JoinSetup => 4
    case JoinPty => 3
    case JoinNet => 2
    case FreeRecord => 1
    case _ => 0
  }

  predicate BeingFreed(st: Stream) {
    st.cleanup.JoinSetup? || st.cleanup.JoinPty? || st.cleanup.JoinNet? || st.cleanup.FreeRecord?
  }

  /** Every step then brings the end closer, whatever the schedule. */
  lemma CleanupComesCloser(st: Stream, a: Act)
    requires Inv(st) && BeingFreed(st) && Enabled(st, a)
    ensures Distance(Next(st, a)) < Distance(st)
    ensures BeingFreed(Next(st, a)) || Next(st, a).cleanup == Freed
  {
    match a
    case SetupStep(ok) => SetupComesCloser(st, ok);
    case PtyStep(io) => ReaderComesCloser(st.pty, st, io);
    case NetStep(ok) => ReaderComesCloser(st.net, st, NetIo(ok));
    case CleanupStep =>
  }

  lemma SetupComesCloser(st: Stream, ok: bool)
    requires SetupLive(st.setup) && st.closing && BeforeStart(st)
    ensures Distance(SetupNext(st, ok)) < Distance(st) && SetupNext(st, ok).cleanup == st.cleanup
  {
    SetupShorter(st, ok);
    if st.setup.SpawnPty? && ok {
      assert ReaderDistance(st.pty) == 0;
    } else if st.setup.SpawnNet? && ok {
      assert ReaderDistance(st.net) == 0;
    }
  }

  /** A reader that is started counts less than the setup step that starts it. */
  lemma SetupShorter(st: Stream, ok: bool)
    requires SetupLive(st.setup) && st.closing
    ensures
      var started := (st.setup.SpawnPty? || st.setup.SpawnNet?) && ok;
      SetupDistance(SetupGoes(st, ok)) + (if started then ReaderDistance(Loop) else 0) < SetupDistance(st.setup)
  {
  }

  /** A thread not yet started adds nothing to the distance. */
  predicate BeforeStart(st: Stream) {
    (BeforePty(st.setup) ==> st.pty == NotRead) && (BeforeNet(st.setup) ==> st.net == NotRead)
  }

  lemma ReaderComesCloser(p: ReaderPc, st: Stream, io: Io)
    requires Live(p) && st.closing
    ensures ReaderDistance(ReaderNext(p, st, io)) < ReaderDistance(p)
    ensures
      var t := ReaderEffect(p, st, io);
      t.pty == st.pty && t.net == st.net && t.setup == st.setup && t.cleanup == st.cleanup
  {
  }

  /** And some step is always possible: no join waits for a thread that cannot move. */
  lemma CleanupNeverStalls(st: Stream) returns (a: Act)
    requires Inv(st) && BeingFreed(st)
    ensures Enabled(st, a)
  {
    a := if SetupLive(st.setup) then SetupStep(true)
         else if Live(st.pty) then PtyStep(Finished)
         else if Live(st.net) then NetStep(true)
         else CleanupStep;
  }
}
