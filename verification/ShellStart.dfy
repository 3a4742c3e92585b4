/** The shell-start handshake between PID 1 and the forked child: the child reports a
    failure before `execve` through a close-on-exec pipe, the parent reads the report.

    Each read and write is one step and may be short or interrupted; the two sides
    interleave in any order, and the child may be killed at any moment. */
module ShellStart {
  import opened Arithmetic
  import opened Bytes

  const ERRNO_SIZE: nat := 4

  type Errno = e: int | -0x8000_0000 <= e < 0x8000_0000

  /** `to_ne_bytes` on the supported little-endian targets. */
  function ErrnoBytes(errno: Errno): (bytes: seq<byte>)
    ensures |bytes| == ERRNO_SIZE
  {
    ToLe(if errno >= 0 then errno else errno + 0x1_0000_0000, ERRNO_SIZE)
  }

  function BytesErrno(bytes: seq<byte>): Errno
    requires |bytes| == ERRNO_SIZE
  {
    FromLeBound(bytes);
    SpanValues();
    var value := FromLe(bytes);
    if value < 0x8000_0000 then value else value - 0x1_0000_0000
  }

  lemma ErrnoRoundTrip(errno: Errno)
    ensures BytesErrno(ErrnoBytes(errno)) == errno
  {
    SpanValues();
    FromToLe(if errno >= 0 then errno else errno + 0x1_0000_0000, ERRNO_SIZE);
  }

  /** The child: in prepare_shell, in report_shell_start_failure, about to close its
      write end, or with the write end closed (by itself, by exec or by dying). */
  datatype Child = Preparing | Reporting(errno: Errno) | Closing | Gone

  datatype Verdict = Started | Failed(errno: Errno) | TornReport | ReadError(errno: Errno)

  /** The parent: still holding the write end, in read_shell_start_failure, or done. */
  datatype Parent = HoldingWriter | Reading | Finished(verdict: Verdict)

  /** `written` records every byte the child has put into the pipe, `cause` the failure
      it set out to report, `hindered` that its report was cut off by a hard write error, a
      write of nothing or a kill, and `execed` that the shell was started. */
  datatype System = System(
    pipe: seq<byte>,
    child: Child,
    parent: Parent,
    buffer: seq<byte>,
    written: seq<byte>,
    cause: Option<Errno>,
    hindered: bool,
    execed: bool)

  /** What the environment chooses. Counts beyond what is possible are cut down. */
  datatype Action =
    | Exec                          // execve succeeds and closes the write end
    | Fail(errno: Errno)            // a preparation step or execve fails
    | Write(count: nat)             // write returns Ok(count)
    | WriteInterrupted
    | WriteFails
    | CloseWriter
    | Kill
    | ParentCloses                  // the parent closes its copy of the write end
    | Read(count: nat)              // read returns: bytes if there are any, else end of file
    | ReadInterrupted
    | ReadFails(errno: Errno)

  const INITIAL := System([], Preparing, HoldingWriter, [], [], None, false, false)

  function ChildStep(s: System, action: Action): System {
    match action
    case Exec => if s.child.Preparing? then s.(child := Gone, execed := true) else s
    case Fail(errno) => if s.child.Preparing? then s.(child := Reporting(errno), cause := Some(errno)) else s
    case Write(count) => if s.child.Reporting? && |s.written| < ERRNO_SIZE then WriteStep(s, count) else s
    case WriteFails => if s.child.Reporting? then s.(child := Closing, hindered := true) else s
    case CloseWriter => if s.child.Closing? then s.(child := Gone) else s
    case Kill => s.(child := Gone, hindered := s.hindered || s.child.Reporting?)
    case _ => s
  }

  /** One iteration of the reporting loop; it ends when all bytes are out. */
  function WriteStep(s: System, count: nat): System
    requires s.child.Reporting? && |s.written| < ERRNO_SIZE
  {
    var n := Min(count, ERRNO_SIZE - |s.written|);
    var chunk := ErrnoBytes(s.child.errno)[|s.written|..|s.written| + n];
    var t := s.(pipe := s.pipe + chunk, written := s.written + chunk);
    if n == 0 then t.(child := Closing, hindered := true)
    else if |t.written| == ERRNO_SIZE then t.(child := Closing)
    else t
  }

  function ParentStep(s: System, action: Action): System {
    match action
    case ParentCloses => if s.parent.HoldingWriter? then s.(parent := Reading) else s
    case Read(count) => if s.parent.Reading? && |s.buffer| < ERRNO_SIZE then ReadStep(s, count) else s
    case ReadFails(errno) => if s.parent.Reading? then s.(parent := Finished(ReadError(errno))) else s
    case _ => s
  }

  /** One iteration of the reading loop. An empty pipe blocks while the child holds the
      write end and is end of file afterwards. */
  function ReadStep(s: System, count: nat): System
    requires s.parent.Reading? && |s.buffer| < ERRNO_SIZE
  {
    var n := Min(Min(if count == 0 then 1 else count, |s.pipe|), ERRNO_SIZE - |s.buffer|);
    if s.pipe == [] && !s.child.Gone? then s
    else if n == 0 then s.(parent := Finished(if s.buffer == [] then Started else TornReport))
    else
      var t := s.(pipe := s.pipe[n..], buffer := s.buffer + s.pipe[..n]);
      if |t.buffer| == ERRNO_SIZE then t.(parent := Finished(Failed(BytesErrno(t.buffer)))) else t
  }

  function Step(s: System, action: Action): System {
    ParentStep(ChildStep(s, action), action)
  }

  function Run(s: System, actions: seq<Action>): System
    decreases |actions|
  {
    if actions == [] then s else Run(Step(s, actions[0]), actions[1..])
  }

  // ----- What every step keeps -------------------------------------------------------

  /** No byte is lost, invented or reordered, and the pipe carries a prefix of the errno. */
  ghost predicate Conserved(s: System) {
    && s.buffer + s.pipe == s.written && |s.written| <= ERRNO_SIZE
    && (s.written != [] ==> s.cause.Some? && s.written == ErrnoBytes(s.cause.value)[..|s.written|])
    && (s.child.Preparing? ==> s.cause.None? && s.written == [])
    && (s.child.Reporting? ==> s.cause == Some(s.child.errno) && |s.written| < ERRNO_SIZE)
    && (s.cause.Some? && !s.hindered && !s.child.Reporting? ==> |s.written| == ERRNO_SIZE)
    && (s.child.Closing? ==> s.cause.Some?)
    && (s.hindered ==>
          s.cause.Some? && !s.child.Preparing? && !s.child.Reporting? && |s.written| < ERRNO_SIZE)
  }

  ghost predicate ParentOk(s: System) {
    match s.parent
    case HoldingWriter => s.buffer == []
    case Reading => |s.buffer| < ERRNO_SIZE
    case Finished(Started) => s.child.Gone? && s.written == []
    case Finished(TornReport) => s.child.Gone? && 0 < |s.written| < ERRNO_SIZE
    case Finished(Failed(errno)) => |s.written| == ERRNO_SIZE && s.cause == Some(errno)
    case Finished(ReadError(_)) => true
  }

  ghost predicate Inv(s: System) {
    Conserved(s) && ParentOk(s)
  }

  lemma AppendChunk(buffer: seq<byte>, pipe: seq<byte>, report: seq<byte>, done: nat, n: nat)
    requires done + n <= |report| && buffer + pipe == report[..done]
    ensures buffer + (pipe + report[done..done + n]) == report[..done + n]
  {
    assert report[..done + n] == report[..done] + report[done..done + n];
  }

  /** The bytes after a write that took `n`. */
  lemma WriteConserves(s: System, n: nat)
    requires Conserved(s) && s.child.Reporting? && n <= ERRNO_SIZE - |s.written|
    ensures var report := ErrnoBytes(s.child.errno);
            var chunk := report[|s.written|..|s.written| + n];
            && s.buffer + (s.pipe + chunk) == s.written + chunk == report[..|s.written| + n]
            && |s.written + chunk| == |s.written| + n
  {
    hide ErrnoBytes;
    var report := ErrnoBytes(s.child.errno);
    AppendChunk(s.buffer, s.pipe, report, |s.written|, n);
    assert report[..|s.written|] + report[|s.written|..|s.written| + n] == report[..|s.written| + n];
    assert s.written == report[..|s.written|] by {
      if s.written == [] { assert report[..0] == []; }
    }
  }

  lemma WriteKeepsInv(s: System, count: nat)
    requires Inv(s) && s.child.Reporting?
    ensures Inv(WriteStep(s, count))
  {
    hide ErrnoBytes;
    WriteConserves(s, Min(count, ERRNO_SIZE - |s.written|));
  }

  lemma ChildKeepsInv(s: System, action: Action)
    requires Inv(s)
    ensures Inv(ChildStep(s, action))
  {
    hide WriteStep, ErrnoBytes;
    if action.Write? && s.child.Reporting? { WriteKeepsInv(s, action.count); }
  }

  /** Moving bytes from the pipe to the buffer. */
  lemma MoveBytes(buffer: seq<byte>, pipe: seq<byte>, n: nat)
    requires n <= |pipe|
    ensures buffer + pipe[..n] + pipe[n..] == buffer + pipe
  {
    assert pipe == pipe[..n] + pipe[n..];
  }

  /** A full buffer is the whole report. */
  lemma FullBuffer(s: System)
    requires Conserved(s) && |s.buffer| == ERRNO_SIZE
    ensures s.cause == Some(BytesErrno(s.buffer)) && |s.written| == ERRNO_SIZE
  {
    hide ErrnoBytes, BytesErrno;
    assert s.pipe == [] && s.buffer == s.buffer + s.pipe;
    assert ErrnoBytes(s.cause.value)[..ERRNO_SIZE] == ErrnoBytes(s.cause.value);
    ErrnoRoundTrip(s.cause.value);
  }

  /** Bytes read move from the pipe to the buffer. */
  lemma ReadConserves(s: System, n: nat, t: System)
    requires Conserved(s) && n <= |s.pipe|
    requires t == s.(pipe := s.pipe[n..], buffer := s.buffer + s.pipe[..n], parent := t.parent)
    ensures Conserved(t)
  {
    hide ErrnoBytes;
    MoveBytes(s.buffer, s.pipe, n);
  }

  lemma ReadKeepsInv(s: System, count: nat)
    requires Inv(s) && s.parent.Reading?
    ensures Inv(ReadStep(s, count))
  {
    hide ErrnoBytes, BytesErrno, Conserved;
    if s.pipe == [] {
      EndConserves(s, ReadStep(s, count));
    } else {
      var n := Min(Min(if count == 0 then 1 else count, |s.pipe|), ERRNO_SIZE - |s.buffer|);
      ReadSome(s, n);
    }
  }

  lemma ReadSome(s: System, n: nat)
    requires Inv(s) && s.parent.Reading? && 0 < n <= |s.pipe| && n <= ERRNO_SIZE - |s.buffer|
    ensures var t := s.(pipe := s.pipe[n..], buffer := s.buffer + s.pipe[..n]);
            Inv(if |t.buffer| == ERRNO_SIZE then t.(parent := Finished(Failed(BytesErrno(t.buffer)))) else t)
  {
    hide ErrnoBytes, BytesErrno, Conserved;
    var t := s.(pipe := s.pipe[n..], buffer := s.buffer + s.pipe[..n]);
    ReadConserves(s, n, t);
    if |t.buffer| == ERRNO_SIZE {
      FullBuffer(t);
      EndConserves(t, t.(parent := Finished(Failed(BytesErrno(t.buffer)))));
    }
  }

  /** An empty pipe: nothing moves, and what was written is in the buffer. */
  lemma EndConserves(s: System, t: System)
    requires Conserved(s) && t == s.(parent := t.parent)
    ensures Conserved(t) && (s.pipe == [] ==> s.buffer == s.written)
  {
    hide ErrnoBytes;
  }

  lemma ParentKeepsInv(s: System, action: Action)
    requires Inv(s)
    ensures Inv(ParentStep(s, action))
  {
    hide ReadStep;
    if action.Read? && s.parent.Reading? { ReadKeepsInv(s, action.count); }
  }

  lemma StepKeepsInv(s: System, action: Action)
    requires Inv(s)
    ensures Inv(Step(s, action))
  {
    hide Inv, ChildStep, ParentStep;
    ChildKeepsInv(s, action);
    ParentKeepsInv(ChildStep(s, action), action);
  }

  lemma {:induction false} RunKeepsInv(s: System, actions: seq<Action>)
    requires Inv(s)
    ensures Inv(Run(s, actions))
    decreases |actions|
  {
    if actions != [] {
      StepKeepsInv(s, actions[0]);
      RunKeepsInv(Step(s, actions[0]), actions[1..]);
    }
  }

  /** Whatever the interleaving, a parent that is done without a read error has the
      verdict that the child's bytes dictate: none, all of them, or a torn report. */
  lemma VerdictIsFixedByBytes(actions: seq<Action>)
    ensures var s := Run(INITIAL, actions);
            s.parent.Finished? && !s.parent.verdict.ReadError? ==>
              if s.written == [] then s.parent.verdict == Started
              else if |s.written| == ERRNO_SIZE then s.cause.Some? && s.parent.verdict == Failed(s.cause.value)
              else s.parent.verdict == TornReport
  {
    RunKeepsInv(INITIAL, actions);
  }

  /** What cuts a report off: a hard write error, a write of nothing or a kill while the
      child is reporting. */
  predicate CutsOff(s: System, action: Action) {
    s.child.Reporting? && (action.WriteFails? || action.Kill? || action == Write(0))
  }

  predicate NeverCutOff(s: System, actions: seq<Action>)
    decreases |actions|
  {
    actions == [] || (!CutsOff(s, actions[0]) && NeverCutOff(Step(s, actions[0]), actions[1..]))
  }

  /** The parent's steps leave the child and its records alone. */
  lemma ParentOnlyReads(s: System, action: Action)
    ensures var t := ParentStep(s, action); t == s.(pipe := t.pipe, buffer := t.buffer, parent := t.parent)
  {
    hide BytesErrno;
  }

  lemma HinderedStep(s: System, action: Action)
    requires Inv(s)
    ensures Step(s, action).hindered <==> s.hindered || CutsOff(s, action)
  {
    hide ErrnoBytes, ParentStep;
    ParentOnlyReads(ChildStep(s, action), action);
  }

  lemma {:induction false} HinderedIffCutOff(s: System, actions: seq<Action>)
    requires Inv(s)
    ensures Run(s, actions).hindered <==> s.hindered || !NeverCutOff(s, actions)
    decreases |actions|
  {
    hide Step, Inv, CutsOff;
    if actions != [] {
      StepKeepsInv(s, actions[0]);
      HinderedStep(s, actions[0]);
      HinderedIffCutOff(Step(s, actions[0]), actions[1..]);
    }
  }

  /** A report that is over is short if and only if it was cut off: short writes,
      interruptions, a kill before or after, and any interleaving are harmless. */
  lemma ShortIffCutOff(actions: seq<Action>)
    ensures var s := Run(INITIAL, actions);
            s.cause.Some? && !s.child.Reporting? ==>
              (|s.written| < ERRNO_SIZE <==> !NeverCutOff(INITIAL, actions))
  {
    RunKeepsInv(INITIAL, actions);
    HinderedIffCutOff(INITIAL, actions);
  }

  /** The failure a schedule makes the child report: that of the first `Fail`, if no exec
      and no kill comes before it. */
  function Reported(actions: seq<Action>): Option<Errno> {
    if actions == [] then None
    else if actions[0].Fail? then Some(actions[0].errno)
    else if actions[0].Exec? || actions[0].Kill? then None
    else Reported(actions[1..])
  }

  lemma {:induction false} CauseIsReported(s: System, actions: seq<Action>)
    ensures Run(s, actions).cause ==
            if s.child.Preparing? && Reported(actions).Some? then Reported(actions) else s.cause
    decreases |actions|
  {
    hide ErrnoBytes, BytesErrno;
    if actions != [] { CauseIsReported(Step(s, actions[0]), actions[1..]); }
  }

  /** A read error that the parent reports is one that a read had. */
  lemma {:induction false} ReadErrorIsReal(s: System, actions: seq<Action>)
    requires !s.parent.Finished?
    ensures var t := Run(s, actions);
            t.parent.Finished? && t.parent.verdict.ReadError? ==> ReadFails(t.parent.verdict.errno) in actions
    decreases |actions|
  {
    hide ErrnoBytes, BytesErrno;
    if actions != [] {
      var t := Step(s, actions[0]);
      if t.parent.Finished? {
        FinishedForGood(t, actions[1..]);
      } else {
        ReadErrorIsReal(t, actions[1..]);
      }
    }
  }

  lemma {:induction false} FinishedForGood(s: System, actions: seq<Action>)
    requires s.parent.Finished?
    ensures Run(s, actions).parent == s.parent
    decreases |actions|
  {
    hide ErrnoBytes, BytesErrno;
    if actions != [] { FinishedForGood(Step(s, actions[0]), actions[1..]); }
  }

  /** A failure surfaces as that very errno if and only if its report was not cut off, and
      without a failure the parent always sees a started shell. */
  lemma FailureSurfaces(actions: seq<Action>)
    ensures var s := Run(INITIAL, actions);
            s.parent.Finished? && !s.parent.verdict.ReadError? ==>
              if Reported(actions).Some?
              then s.parent.verdict == Failed(Reported(actions).value) <==> NeverCutOff(INITIAL, actions)
              else s.parent.verdict == Started
  {
    RunKeepsInv(INITIAL, actions);
    HinderedIffCutOff(INITIAL, actions);
    CauseIsReported(INITIAL, actions);
  }

  // ----- What a started shell means ----------------------------------------------------------

  /** The first thing to happen to the preparing child is a kill. */
  predicate KillFirst(actions: seq<Action>) {
    actions != [] && (actions[0].Kill? || (!actions[0].Fail? && !actions[0].Exec? && KillFirst(actions[1..])))
  }

  lemma {:induction false} GoneIsNeverCutOff(s: System, actions: seq<Action>)
    requires s.child.Gone?
    ensures NeverCutOff(s, actions) && Run(s, actions).execed == s.execed
    decreases |actions|
  {
    hide ErrnoBytes, BytesErrno;
    if actions != [] { GoneIsNeverCutOff(Step(s, actions[0]), actions[1..]); }
  }

  lemma {:induction false} ExecedStays(s: System, actions: seq<Action>)
    requires !s.child.Preparing?
    ensures Run(s, actions).execed == s.execed
    decreases |actions|
  {
    hide ErrnoBytes, BytesErrno;
    if actions != [] { ExecedStays(Step(s, actions[0]), actions[1..]); }
  }

  /** A child leaves its preparation by an exec, a kill or a failure, whichever comes first. */
  lemma {:induction false} LeavesPreparing(s: System, actions: seq<Action>)
    requires s.child.Preparing? && !s.execed
    ensures var t := Run(s, actions);
            && (t.execed ==> NeverCutOff(s, actions) && !KillFirst(actions))
            && (!t.child.Preparing? && !t.execed ==> KillFirst(actions) || Reported(actions).Some?)
    decreases |actions|
  {
    hide ErrnoBytes, BytesErrno;
    if actions != [] {
      var t := Step(s, actions[0]);
      if t.child.Preparing? {
        LeavesPreparing(t, actions[1..]);
      } else {
        ExecedStays(t, actions[1..]);
        if actions[0].Exec? { GoneIsNeverCutOff(t, actions[1..]); }
      }
    }
  }

  /** The parent's "started" means that the shell was started if and only if the child was
      not killed while preparing and no report of its was cut off. */
  lemma StartedMeansExecIff(actions: seq<Action>)
    requires Run(INITIAL, actions).parent == Finished(Started)
    ensures Run(INITIAL, actions).execed <==> !KillFirst(actions) && NeverCutOff(INITIAL, actions)
  {
    RunKeepsInv(INITIAL, actions);
    HinderedIffCutOff(INITIAL, actions);
    CauseIsReported(INITIAL, actions);
    LeavesPreparing(INITIAL, actions);
  }

  /** A child killed while preparing looks like a started shell. */
  lemma StartedWithoutExec()
    ensures var s := Run(INITIAL, [Kill, ParentCloses, Read(1)]);
            s.parent == Finished(Started) && !s.execed
  {
    var s1 := Step(INITIAL, Kill);
    var s2 := Step(s1, ParentCloses);
    var s3 := Step(s2, Read(1));
    assert Run(s2, [Read(1)]) == s3;
    assert [ParentCloses, Read(1)][1..] == [Read(1)];
    assert Run(s1, [ParentCloses, Read(1)]) == s3;
    assert [Kill, ParentCloses, Read(1)][1..] == [ParentCloses, Read(1)];
  }

  // ----- Termination -------------------------------------------------------------------------

  /** Writes that take something; reads. */
  function Writes(actions: seq<Action>): nat {
    if actions == [] then 0
    else (if actions[0].Write? && actions[0].count > 0 then 1 else 0) + Writes(actions[1..])
  }

  function Reads(actions: seq<Action>): nat {
    if actions == [] then 0 else (if actions[0].Read? then 1 else 0) + Reads(actions[1..])
  }

  lemma WriterStep(s: System, action: Action)
    requires Inv(s) && s.child.Reporting? && !CutsOff(s, action)
    ensures var t := Step(s, action);
            if t.child.Reporting?
            then t.child == s.child && |t.written| >= |s.written| + Writes([action])
            else t.child.Closing? && t.written == ErrnoBytes(s.child.errno)
  {
    hide ErrnoBytes, ParentStep;
    StepKeepsInv(s, action);
    ParentOnlyReads(ChildStep(s, action), action);
    assert ErrnoBytes(s.child.errno)[..ERRNO_SIZE] == ErrnoBytes(s.child.errno);
  }

  /** Four writes that take something complete a report that is not cut off, whatever the
      parent does in between and however often a write is interrupted. */
  lemma {:induction false} WriterTerminates(s: System, actions: seq<Action>)
    requires Inv(s) && s.child.Reporting? && NeverCutOff(s, actions)
    requires Writes(actions) >= ERRNO_SIZE - |s.written|
    ensures var t := Run(s, actions); t.written == ErrnoBytes(s.child.errno) && (t.child.Closing? || t.child.Gone?)
    decreases |actions|
  {
    hide ErrnoBytes, Step, CutsOff;
    if actions != [] {
      var t := Step(s, actions[0]);
      StepKeepsInv(s, actions[0]);
      WriterStep(s, actions[0]);
      if t.child.Reporting? {
        WriterTerminates(t, actions[1..]);
      } else {
        ReportStays(t, actions[1..]);
      }
    }
  }

  lemma {:induction false} ReportStays(s: System, actions: seq<Action>)
    requires s.child.Closing? || s.child.Gone?
    ensures Run(s, actions).written == s.written && (Run(s, actions).child.Closing? || Run(s, actions).child.Gone?)
    decreases |actions|
  {
    hide ErrnoBytes, BytesErrno;
    if actions != [] { ReportStays(Step(s, actions[0]), actions[1..]); }
  }

  lemma ReaderStep(s: System, action: Action)
    requires Inv(s) && s.child.Gone? && !s.parent.HoldingWriter?
    ensures var t := Step(s, action);
            && t.child.Gone? && !t.parent.HoldingWriter?
            && (t.parent.Reading? ==> s.parent.Reading? && |t.pipe| + Reads([action]) <= |s.pipe|)
  {
    hide ErrnoBytes, BytesErrno;
  }

  /** Once the child's write end is gone the parent never blocks: one read more than the
      bytes left ends its loop, however often a read is interrupted. */
  lemma {:induction false} ReaderTerminates(s: System, actions: seq<Action>)
    requires Inv(s) && s.child.Gone? && !s.parent.HoldingWriter?
    requires s.parent.Reading? ==> Reads(actions) > |s.pipe|
    ensures Run(s, actions).parent.Finished?
    decreases |actions|
  {
    hide Step, Inv;
    if actions != [] {
      StepKeepsInv(s, actions[0]);
      ReaderStep(s, actions[0]);
      ReaderTerminates(Step(s, actions[0]), actions[1..]);
    }
  }

  // ----- Nothing gets stuck ------------------------------------------------------------------

  lemma {:induction false} RunThen(s: System, first: seq<Action>, second: seq<Action>)
    ensures Run(s, first + second) == Run(Run(s, first), second)
    decreases |first|
  {
    hide Step;
    if first == [] {
      assert first + second == second;
    } else {
      assert (first + second)[1..] == first[1..] + second;
      RunThen(Step(s, first[0]), first[1..], second);
    }
  }

  /** Whatever it is doing, the child can give up its end of the pipe by itself. */
  lemma ChildCanLeave(s: System) returns (actions: seq<Action>)
    requires Inv(s)
    ensures Inv(Run(s, actions)) && Run(s, actions).child.Gone? && Run(s, actions).parent == s.parent
    ensures forall action <- actions :: !action.Kill? && !action.ReadFails?
  {
    hide ErrnoBytes, BytesErrno, Inv;
    match s.child
    case Gone =>
      actions := [];
    case Preparing =>
      actions := [Exec];
      StepKeepsInv(s, Exec);
      assert Run(Step(s, Exec), []) == Step(s, Exec);
    case Closing =>
      actions := CloserLeaves(s);
    case Reporting(_) =>
      var t := Step(s, Write(ERRNO_SIZE));
      StepKeepsInv(s, Write(ERRNO_SIZE));
      FullWriteCloses(s);
      var more := CloserLeaves(t);
      actions := [Write(ERRNO_SIZE)] + more;
      assert actions[1..] == more;
  }

  lemma FullWriteCloses(s: System)
    requires Inv(s) && s.child.Reporting?
    ensures Step(s, Write(ERRNO_SIZE)).child.Closing? && Step(s, Write(ERRNO_SIZE)).parent == s.parent
  {
    hide ErrnoBytes;
  }

  lemma CloserLeaves(s: System) returns (actions: seq<Action>)
    requires Inv(s) && s.child.Closing?
    ensures actions == [CloseWriter]
    ensures Inv(Run(s, actions)) && Run(s, actions).child.Gone? && Run(s, actions).parent == s.parent
  {
    hide ErrnoBytes, BytesErrno, Inv;
    actions := [CloseWriter];
    StepKeepsInv(s, CloseWriter);
    assert Run(Step(s, CloseWriter), []) == Step(s, CloseWriter);
  }

  lemma {:induction false} ManyReads(n: nat)
    ensures Reads(seq(n, _ => Read(ERRNO_SIZE))) == n
  {
    if n > 0 { assert seq(n, _ => Read(ERRNO_SIZE))[1..] == seq(n - 1, _ => Read(ERRNO_SIZE)); ManyReads(n - 1); }
  }

  /** After every run, and with neither a kill nor a failing read, the handshake can still
      come to an end: no interleaving leaves the two sides waiting for each other. */
  lemma HandshakeCanEnd(actions: seq<Action>) returns (more: seq<Action>)
    ensures Run(INITIAL, actions + more).parent.Finished?
    ensures forall action <- more :: !action.Kill? && !action.ReadFails?
  {
    assert Inv(INITIAL);
    hide Run, Step, Inv;
    var s := Run(INITIAL, actions);
    RunKeepsInv(INITIAL, actions);
    var leaving := ChildCanLeave(s);
    var t := Run(s, leaving);
    ParentLetsGo(t);
    var u := Run(t, [ParentCloses]);
    var finish := seq(ERRNO_SIZE + 1, _ => Read(ERRNO_SIZE));
    ManyReads(ERRNO_SIZE + 1);
    ReaderTerminates(u, finish);
    more := leaving + ([ParentCloses] + finish);
    RunThen(t, [ParentCloses], finish);
    RunThen(s, leaving, [ParentCloses] + finish);
    RunThen(INITIAL, actions, more);
  }

  lemma ParentLetsGo(s: System)
    requires Inv(s) && s.child.Gone?
    ensures var t := Run(s, [ParentCloses]);
            Inv(t) && t.child.Gone? && !t.parent.HoldingWriter? && |t.pipe| <= ERRNO_SIZE
  {
    hide ErrnoBytes, BytesErrno;
    StepKeepsInv(s, ParentCloses);
    assert Run(Step(s, ParentCloses), []) == Step(s, ParentCloses);
  }

  /** A hard read error ends the parent's loop with that error, for good. */
  lemma ReadErrorEnds(s: System, errno: Errno, actions: seq<Action>)
    requires s.parent.Reading?
    ensures Run(Step(s, ReadFails(errno)), actions).parent == Finished(ReadError(errno))
  {
    FinishedForGood(Step(s, ReadFails(errno)), actions);
  }
}
