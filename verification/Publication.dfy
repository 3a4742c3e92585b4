/** Publication of an embedded initial program: a fresh ramfs, a private temporary file,
    and one rename that makes the finished file visible under its published name. */
module Publication {
  import opened Arithmetic
  import opened Bytes

  datatype SysError = NotFound | NotDir | Exists | IO | Other(code: int)

  datatype Mode = OwnerReadWrite | AllReadExecute | AllReadExecuteOwnerWrite

  datatype Node = Node(contents: seq<byte>, mode: Mode)

  datatype Name = Temp | Program

  /** The mountpoint, the temporary path and the published path. */
  datatype Location = Mountpoint | At(name: Name)

  datatype Operation =
    | InspectMountpoint | CreateMountpoint | MountRamfs | ResolveRoot | ChmodRoot
    | CreateTemp | OpenTemp | WriteTemp | ChmodTemp | PublishRename

  /** The calls of a run, the latest outermost. */
  datatype Trace = Start | Then(before: Trace, operation: Operation)

  datatype MaterializeError = MaterializeError(operation: Operation, path: Location, source: SysError)

  /** How the mountpoint first resolves. */
  datatype Lookup = Resolved(isDirectory: bool) | Failed(error: SysError)

  /** What the environment makes of one filesystem call: it fails, or it succeeds; a write
      stores at most `amount` of the bytes it was given, also one that fails. */
  datatype Outcome = Fault(error: SysError, amount: nat) | Success(amount: nat)

  /** The ramfs as any other observer would find it. */
  datatype Snapshot = Snapshot(names: map<Name, nat>, inodes: map<nat, Node>)

  ghost predicate WellFormed(s: Snapshot) {
    forall name <- s.names :: s.names[name] in s.inodes
  }

  /** The published name is absent, or it names the whole image with execute permission. */
  ghost predicate Safe(s: Snapshot, image: seq<byte>) {
    WellFormed(s) && (Program in s.names ==> s.inodes[s.names[Program]] == Node(image, AllReadExecute))
  }

  ghost predicate Unpublished(history: seq<Snapshot>) {
    forall s <- history :: WellFormed(s) && Program !in s.names
  }

  /** The file system calls, one outcome of the environment each. */
  class RamFs {
    const outcomes: nat -> Outcome
    var calls: nat
    var names: map<Name, nat>
    var inodes: map<nat, Node>
    var nextInode: nat
    var created: Option<Mode>       // the mountpoint, if it had to be made
    var mounted: bool               // over the mountpoint
    var rootMode: Mode
    // Every state another observer could have seen, oldest first.
    ghost var history: seq<Snapshot>
    // The last call to fail, if any has: its error, or IO for a write that took nothing.
    ghost var failure: Option<SysError>
    // What each call made so far was for.
    ghost var trace: Trace

    constructor (outcomes: nat -> Outcome)
      ensures this.outcomes == outcomes && calls == 0 && failure == None && trace == Start
      ensures created == None && !mounted
      ensures Now() == Snapshot(map[], map[]) && Valid() && history == [Now()]
    {
      this.outcomes := outcomes;
      calls, nextInode := 0, 0;
      created, mounted, rootMode := None, false, OwnerReadWrite;
      names, inodes := map[], map[];
      history, failure, trace := [Snapshot(map[], map[])], None, Start;
    }

    ghost function Now(): Snapshot
      reads this
    {
      Snapshot(names, inodes)
    }

    ghost function After(outcome: Outcome): Option<SysError>
      reads this
    {
      if outcome.Fault? then Some(outcome.error) else failure
    }

    ghost predicate Valid()
      reads this
    {
      && WellFormed(Now())
      && (forall ino <- inodes :: ino < nextInode)
      && history != [] && history[|history| - 1] == Now()
    }

    /** One call without an effect on the ramfs: a lookup, a mount, an open. */
    method Call(ghost purpose: Operation) returns (r: Result<(), SysError>)
      requires Valid()
      modifies this`calls, this`failure, this`trace
      ensures Valid() && failure == old(After(outcomes(calls)))
      ensures trace == Then(old(trace), purpose) && calls == old(calls) + 1
      ensures r == if outcomes(old(calls)).Fault? then Err(outcomes(old(calls)).error) else Ok(())
    {
      var outcome := outcomes(calls);
      failure, trace := After(outcome), Then(trace, purpose);
      calls := calls + 1;
      return if outcome.Fault? then Err(outcome.error) else Ok(());
    }

    /** `vfs_mkdir_as_root` of the mountpoint. */
    method Mkdir(mode: Mode) returns (r: Result<(), SysError>)
      requires Valid()
      modifies this`calls, this`failure, this`trace, this`created
      ensures Valid() && failure == old(After(outcomes(calls)))
      ensures trace == Then(old(trace), CreateMountpoint) && calls == old(calls) + 1
      ensures r == if outcomes(old(calls)).Fault? then Err(outcomes(old(calls)).error) else Ok(())
      ensures created == if r.Ok? then Some(mode) else old(created)
    {
      r := Call(CreateMountpoint);
      if r.Ok? { created := Some(mode); }
    }

    /** `mount_at`. */
    method Mount() returns (r: Result<(), SysError>)
      requires Valid()
      modifies this`calls, this`failure, this`trace, this`mounted
      ensures Valid() && failure == old(After(outcomes(calls)))
      ensures trace == Then(old(trace), Operation.MountRamfs) && calls == old(calls) + 1
      ensures r == if outcomes(old(calls)).Fault? then Err(outcomes(old(calls)).error) else Ok(())
      ensures mounted == (old(mounted) || r.Ok?)
    {
      r := Call(Operation.MountRamfs);
      if r.Ok? { mounted := true; }
    }

    /** `kernel_fchmod` on the root directory. */
    method ChmodRoot(mode: Mode) returns (r: Result<(), SysError>)
      requires Valid()
      modifies this`calls, this`failure, this`trace, this`rootMode
      ensures Valid() && failure == old(After(outcomes(calls)))
      ensures trace == Then(old(trace), Operation.ChmodRoot) && calls == old(calls) + 1
      ensures r == if outcomes(old(calls)).Fault? then Err(outcomes(old(calls)).error) else Ok(())
      ensures rootMode == if r.Ok? then mode else old(rootMode)
    {
      r := Call(Operation.ChmodRoot);
      if r.Ok? { rootMode := mode; }
    }

    /** Creates an empty file; the name must be free. */
    method Touch(name: Name, mode: Mode) returns (r: Result<nat, SysError>)
      requires Valid()
      modifies this`calls, this`failure, this`trace, this`names, this`inodes, this`nextInode, this`history
      ensures Valid() && failure == old(After(outcomes(calls)))
      ensures trace == Then(old(trace), CreateTemp) && calls == old(calls) + 1
      ensures r.Ok? ==>
                && name !in old(names) && r.value !in old(inodes)
                && names == old(names)[name := r.value] && inodes == old(inodes)[r.value := Node([], mode)]
                && history == old(history) + [Now()]
      ensures r.Err? ==> Now() == old(Now()) && history == old(history)
      ensures r.Err? <==> outcomes(old(calls)).Fault? || name in old(names)
      ensures r.Err? && name !in old(names) ==> failure == Some(r.error)
    {
      var outcome := outcomes(calls);
      failure, trace := After(outcome), Then(trace, CreateTemp);
      calls := calls + 1;
      if outcome.Fault? { return Err(outcome.error); }
      if name in names { return Err(Exists); }
      var ino := nextInode;
      nextInode := nextInode + 1;
      inodes := inodes[ino := Node([], mode)];
      names := names[name := ino];
      history := history + [Now()];
      return Ok(ino);
    }

    /** A write at `position`, which must not lie past the end; it may be short, and a
        failing one may have stored some bytes. */
    method Write(ino: nat, position: nat, bytes: seq<byte>) returns (r: Result<nat, SysError>)
      requires Valid() && ino in inodes && position <= |inodes[ino].contents|
      modifies this`calls, this`failure, this`trace, this`inodes, this`history
      ensures Valid() && names == old(names) && inodes.Keys == old(inodes.Keys)
      ensures trace == Then(old(trace), WriteTemp) && calls == old(calls) + 1
      ensures if r.Err? then failure == Some(r.error)
              else failure == if r.value == 0 < |bytes| then Some(IO) else old(failure)
      ensures r.Err? <==> outcomes(old(calls)).Fault?
      ensures history == old(history) + [Now()]
      ensures var stored := Min(outcomes(old(calls)).amount, |bytes|);
              && (r.Ok? ==> r.value == stored)
              && inodes == old(inodes)[ino := Node(Overwritten(old(inodes[ino].contents), position, bytes[..stored]),
                                                   old(inodes[ino].mode))]
    {
      var outcome := outcomes(calls);
      failure, trace := After(outcome), Then(trace, WriteTemp);
      calls := calls + 1;
      var stored := Min(outcome.amount, |bytes|);
      inodes := inodes[ino := Node(Overwritten(inodes[ino].contents, position, bytes[..stored]), inodes[ino].mode)];
      history := history + [Now()];
      if outcome.Fault? { return Err(outcome.error); }
      if stored == 0 < |bytes| { failure := Some(IO); }
      return Ok(stored);
    }

    method Chmod(ino: nat, mode: Mode) returns (r: Result<(), SysError>)
      requires Valid() && ino in inodes
      modifies this`calls, this`failure, this`trace, this`inodes, this`history
      ensures Valid() && names == old(names)
      ensures trace == Then(old(trace), ChmodTemp) && calls == old(calls) + 1
      ensures failure == if r.Err? then Some(r.error) else old(failure)
      ensures r.Err? <==> outcomes(old(calls)).Fault?
      ensures r.Err? ==> Now() == old(Now()) && history == old(history)
      ensures r.Ok? ==>
                && inodes == old(inodes)[ino := Node(old(inodes[ino].contents), mode)]
                && history == old(history) + [Now()]
    {
      var outcome := outcomes(calls);
      failure, trace := After(outcome), Then(trace, ChmodTemp);
      calls := calls + 1;
      if outcome.Fault? { return Err(outcome.error); }
      inodes := inodes[ino := Node(inodes[ino].contents, mode)];
      history := history + [Now()];
      return Ok(());
    }

    /** An atomic rename that refuses to replace. */
    method RenameNoReplace(from: Name, to: Name) returns (r: Result<(), SysError>)
      requires Valid() && from in names && from != to
      modifies this`calls, this`failure, this`trace, this`names, this`history
      ensures Valid() && inodes == old(inodes)
      ensures trace == Then(old(trace), PublishRename) && calls == old(calls) + 1
      ensures failure == old(After(outcomes(calls)))
      ensures r.Err? <==> outcomes(old(calls)).Fault? || to in old(names)
      ensures r.Err? && to !in old(names) ==> failure == Some(r.error)
      ensures r.Err? ==> Now() == old(Now()) && history == old(history)
      ensures r.Ok? ==> names == (old(names) - {from})[to := old(names[from])] && history == old(history) + [Now()]
    {
      var outcome := outcomes(calls);
      failure, trace := After(outcome), Then(trace, PublishRename);
      calls := calls + 1;
      if outcome.Fault? { return Err(outcome.error); }
      if to in names { return Err(Exists); }
      names := (names - {from})[to := names[from]];
      history := history + [Now()];
      return Ok(());
    }
  }

  function Overwritten(contents: seq<byte>, position: nat, bytes: seq<byte>): seq<byte>
    requires position <= |contents|
  {
    contents[..position] + bytes +
    (if position + |bytes| < |contents| then contents[position + |bytes|..] else [])
  }

  /** The calls of a mount that succeeds: `mkdir` only where the mountpoint was missing. */
  ghost function Mounting(mountpoint: Lookup, before: Trace): Trace {
    var found := if mountpoint.Failed? then Then(before, CreateMountpoint) else before;
    Then(Then(Then(found, Operation.MountRamfs), ResolveRoot), Operation.ChmodRoot)
  }

  /** Nothing but writes was done in between. */
  ghost predicate OnlyWrites(before: Trace, after: Trace) {
    before == after || (after.Then? && after.operation == WriteTemp && OnlyWrites(before, after.before))
  }

  /** The calls that fill the temporary file: made, opened, written, and its mode set last. */
  ghost predicate Filling(before: Trace, after: Trace) {
    && after.Then? && after.operation == ChmodTemp
    && OnlyWrites(Then(Then(before, CreateTemp), OpenTemp), after.before)
  }

  /** Where each operation works. */
  function PathOf(operation: Operation): Location {
    match operation
    case PublishRename => At(Program)
    case CreateTemp | OpenTemp | WriteTemp | ChmodTemp => At(Temp)
    case _ => Mountpoint
  }

  /** The error names the last call made, and the path that call worked on. */
  ghost predicate Blames(error: MaterializeError, trace: Trace) {
    trace.Then? && error.operation == trace.operation && error.path == PathOf(error.operation)
  }

  /** Writing at the end of a prefix of the image gives a longer prefix. */
  lemma OverwrittenPrefix(image: seq<byte>, position: nat, written: nat)
    requires position + written <= |image|
    ensures Overwritten(image[..position], position, image[position..][..written]) == image[..position + written]
  {
  }

  /** `write_all`: every byte, or an error; short writes are resumed and a write that takes
      nothing is an error rather than another round. */
  method WriteAll(fs: RamFs, ino: nat, image: seq<byte>) returns (r: Result<(), MaterializeError>)
    requires fs.Valid() && ino in fs.inodes && fs.inodes[ino].contents == []
    requires Unpublished(fs.history)
    modifies fs`calls, fs`failure, fs`trace, fs`inodes, fs`history
    ensures fs.Valid() && fs.names == old(fs.names) && Unpublished(fs.history)
    ensures fs.failure == if r.Ok? then old(fs.failure) else Some(r.error.source)
    ensures OnlyWrites(old(fs.trace), fs.trace) && (r.Err? ==> Blames(r.error, fs.trace))
    ensures r.Ok? ==> fs.inodes == old(fs.inodes)[ino := Node(image, old(fs.inodes[ino].mode))]
    ensures r.Err? ==>
              && r.error.operation == WriteTemp && r.error.path == At(Temp)
              && exists k: nat :: k <= |image|
                                  && fs.inodes == old(fs.inodes)[ino := Node(image[..k], old(fs.inodes[ino].mode))]
  {
    var position := 0;
    while position < |image|
      invariant fs.Valid() && fs.names == old(fs.names) && Unpublished(fs.history)
      invariant position <= |image| && fs.failure == old(fs.failure)
      invariant OnlyWrites(old(fs.trace), fs.trace)
      invariant fs.inodes == old(fs.inodes)[ino := Node(image[..position], old(fs.inodes[ino].mode))]
    {
      OverwrittenPrefix(image, position, Min(fs.outcomes(fs.calls).amount, |image| - position));
      var written := fs.Write(ino, position, image[position..]);
      if written.Err? { return Err(MaterializeError(WriteTemp, At(Temp), written.error)); }
      if written.value == 0 { return Err(MaterializeError(WriteTemp, At(Temp), IO)); }
      position := position + written.value;
    }
    assert image[..position] == image;
    return Ok(());
  }

  /** `mount_embedded_ramfs`: the errors name the call that failed; the ramfs stays empty. */
  method MountRamfs(fs: RamFs, mountpoint: Lookup) returns (r: Result<(), MaterializeError>)
    requires fs.Valid()
    modifies fs`calls, fs`failure, fs`trace, fs`created, fs`mounted, fs`rootMode
    ensures fs.Valid()
    ensures r.Ok? ==> fs.trace == Mounting(mountpoint, old(fs.trace))
    ensures r.Err? ==> if r.error.operation == InspectMountpoint then fs.trace == old(fs.trace)
                       else Blames(r.error, fs.trace)
    ensures r.Ok? ==> fs.created == if mountpoint.Failed? then Some(AllReadExecuteOwnerWrite) else old(fs.created)
    ensures r.Ok? ==> fs.mounted && fs.rootMode == AllReadExecuteOwnerWrite
    ensures fs.failure == if r.Ok? || r.error.operation == InspectMountpoint then old(fs.failure)
                          else Some(r.error.source)
    ensures r.Err? ==> r.error.path == Mountpoint
    ensures mountpoint == Resolved(false) ==> r == Err(MaterializeError(InspectMountpoint, Mountpoint, NotDir))
    ensures mountpoint.Failed? && mountpoint.error != NotFound ==>
              r == Err(MaterializeError(InspectMountpoint, Mountpoint, mountpoint.error))
    ensures r.Err? && r.error.operation == CreateMountpoint ==> mountpoint == Failed(NotFound)
    ensures r.Err? && r.error.operation == InspectMountpoint ==>
              mountpoint != Resolved(true) && mountpoint != Failed(NotFound)
    ensures r.Err? ==>
              r.error.operation in {InspectMountpoint, CreateMountpoint, Operation.MountRamfs, ResolveRoot, ChmodRoot}
  {
    if mountpoint.Resolved? {
      if !mountpoint.isDirectory { return Err(MaterializeError(InspectMountpoint, Mountpoint, NotDir)); }
    } else if mountpoint.error == NotFound {
      var created := fs.Mkdir(AllReadExecuteOwnerWrite);
      if created.Err? { return Err(MaterializeError(CreateMountpoint, Mountpoint, created.error)); }
    } else {
      return Err(MaterializeError(InspectMountpoint, Mountpoint, mountpoint.error));
    }
    var mounted := fs.Mount();
    if mounted.Err? { return Err(MaterializeError(Operation.MountRamfs, Mountpoint, mounted.error)); }
    var root := fs.Call(ResolveRoot);
    if root.Err? { return Err(MaterializeError(ResolveRoot, Mountpoint, root.error)); }
    var chmod := fs.ChmodRoot(AllReadExecuteOwnerWrite);
    if chmod.Err? { return Err(MaterializeError(ChmodRoot, Mountpoint, chmod.error)); }
    return Ok(());
  }

  /** What a failure leaves behind, told from the operation its error names. */
  ghost predicate LeftBehind(s: Snapshot, operation: Operation, image: seq<byte>)
    requires WellFormed(s)
  {
    match operation
    case OpenTemp => Temp in s.names && s.inodes[s.names[Temp]] == Node([], OwnerReadWrite)
    case WriteTemp => Temp in s.names && s.inodes[s.names[Temp]].contents <= image
                      && s.inodes[s.names[Temp]].mode == OwnerReadWrite
    case ChmodTemp => Temp in s.names && s.inodes[s.names[Temp]] == Node(image, OwnerReadWrite)
    case PublishRename => Temp in s.names && s.inodes[s.names[Temp]] == Node(image, AllReadExecute)
    case _ => s.names == map[]
  }

  /** The steps before publication, all on the temporary name. */
  method FillTemp(fs: RamFs, image: seq<byte>) returns (r: Result<(), MaterializeError>)
    requires fs.Valid() && fs.Now() == Snapshot(map[], map[]) && Unpublished(fs.history)
    modifies fs`calls, fs`failure, fs`trace, fs`names, fs`inodes, fs`nextInode, fs`history
    ensures fs.Valid() && Unpublished(fs.history)
    ensures r.Ok? ==> Filling(old(fs.trace), fs.trace)
    ensures r.Err? ==> Blames(r.error, fs.trace)
    ensures fs.failure == if r.Ok? then old(fs.failure) else Some(r.error.source)
    ensures r.Ok? ==> fs.names.Keys == {Temp} && fs.inodes[fs.names[Temp]] == Node(image, AllReadExecute)
    ensures r.Err? ==> r.error.operation in {CreateTemp, OpenTemp, WriteTemp, ChmodTemp} && r.error.path == At(Temp)
    ensures r.Err? ==> LeftBehind(fs.Now(), r.error.operation, image)
  {
    var temp := fs.Touch(Temp, OwnerReadWrite);
    if temp.Err? { return Err(MaterializeError(CreateTemp, At(Temp), temp.error)); }
    var open := fs.Call(OpenTemp);
    if open.Err? { return Err(MaterializeError(OpenTemp, At(Temp), open.error)); }
    var written := WriteAll(fs, temp.value, image);
    if written.Err? { return Err(written.error); }
    var chmod := fs.Chmod(temp.value, AllReadExecute);
    if chmod.Err? { return Err(MaterializeError(ChmodTemp, At(Temp), chmod.error)); }
    return Ok(());
  }

  /** `materialize_embedded_at`. Whatever the environment does, no observer ever finds a
      partial or non-executable program under the published name; it is there exactly on
      success, and the temporary name is then gone. It fails only where a call failed or a
      write took nothing, and the error is that call's. */
  method MaterializeEmbeddedAt(fs: RamFs, mountpoint: Lookup, image: seq<byte>)
    returns (r: Result<Location, MaterializeError>)
    requires fs.Valid() && fs.Now() == Snapshot(map[], map[]) && fs.history == [fs.Now()] && fs.failure == None
    modifies fs
    ensures fs.Valid() && forall s <- fs.history :: Safe(s, image)
    ensures r.Ok? ==> fs.trace.Then? && fs.trace.operation == PublishRename
                      && Filling(Mounting(mountpoint, old(fs.trace)), fs.trace.before)
    ensures r.Err? && r.error.operation == InspectMountpoint ==>
              fs.trace == old(fs.trace) && r.error.path == Mountpoint
    ensures r.Err? && r.error.operation != InspectMountpoint ==> Blames(r.error, fs.trace)
    ensures r.Ok? ==> fs.failure == None && fs.mounted && fs.rootMode == AllReadExecuteOwnerWrite
    ensures r.Err? ==> if r.error.operation == InspectMountpoint
                       then mountpoint != Resolved(true) && mountpoint != Failed(NotFound)
                       else fs.failure == Some(r.error.source)
    ensures r.Ok? ==> r.value == At(Program) && fs.names.Keys == {Program}
    ensures r.Err? ==> Unpublished(fs.history) && LeftBehind(fs.Now(), r.error.operation, image)
  {
    hide Mounting, Filling, OnlyWrites;
    var mounted := MountRamfs(fs, mountpoint);
    if mounted.Err? { return Err(mounted.error); }
    var filled := FillTemp(fs, image);
    if filled.Err? { return Err(filled.error); }
    var renamed := fs.RenameNoReplace(Temp, Program);
    if renamed.Err? { return Err(MaterializeError(PublishRename, At(Program), renamed.error)); }
    return Ok(At(Program));
  }
}
