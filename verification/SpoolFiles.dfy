/** The spool file protocol: temp file, fsync, verify, rename, under any partial transfer, failure or stop. */
module SpoolFiles {
  import opened Bytes
  import opened Wrappers

  /** `synced`: the data survives a power loss. */
  datatype File = File(data: seq<byte>, synced: bool)

  /** `Interrupt`: KeyboardInterrupt or SystemExit. `Stop`: the process dies, so no handler runs. */
  datatype How = Fine | Unavailable | Interrupt | Stop

  /** The fate of one system call: whether it takes effect although it fails, and how much it transfers at most. */
  datatype Fate = Fate(how: How, applied: bool, count: nat)

  predicate Calm(fate: Fate) {
    fate.how.Fine? && fate.count > 0
  }

  datatype Sys = Done | Missing | Exists | Refused | OsError | Interrupted | Stopped

  function Failure(how: How): Sys {
    match how case Fine => Done case Unavailable => OsError case Interrupt => Interrupted case Stop => Stopped
  }

  /** Which system call it was; `OnCheckFree` is the look for an existing file before a write. */
  datatype Call =
    | OnLstat | OnOpen | OnRead | OnClose | OnCheckFree | OnCheckAgain
    | OnCreate | OnWrite | OnSync | OnRename | OnSyncDirectory | OnMakeDirectory | OnRemove

  /** How many calls failed in each way, and which failed last. */
  datatype Failures = Failures(unavailable: nat, interrupts: nat, stops: nat, last: Option<Call>)

  const NO_FAILURES := Failures(0, 0, 0, None)

  /** Between `was` and `now` one call failed as `r` says, or none did. */
  predicate FailedAs(was: Failures, now: Failures, r: Sys) {
    && now.unavailable == was.unavailable + (if r == OsError then 1 else 0)
    && now.interrupts == was.interrupts + (if r == Interrupted then 1 else 0)
    && now.stops == was.stops + (if r == Stopped then 1 else 0)
    && (r !in {OsError, Interrupted, Stopped} ==> now.last == was.last)
  }

  /** What failed, if anything did, was not the look for an existing file before a write. */
  predicate Elsewhere(was: Failures, now: Failures) {
    now == was || (now.last.Some? && now.last != Some(OnCheckFree))
  }

  datatype Inspection = Valid | Mismatch | MissingFile | IoUnavailable | Unsafe | InspectionInterrupted | InspectionStopped

  /** How a write ends: normally, with an AttachmentError, with an OSError, interrupted, or with the process gone. */
  datatype Ending = Written | AttachmentFailed | OsRaised | WriteInterrupted | WriteStopped

  datatype Unlinked = Removed | AlreadyMissing | UnlinkUnavailable | UnlinkInterrupted | UnlinkStopped
  datatype ReadError = ReadFailed | ReadInterrupted | ReadStopped

  /** A directory's entry in its parent. Nothing in the source syncs a parent, so a new entry stays unsettled. */
  datatype Entry = NoEntry | NewEntry | SettledEntry

  const READ_CHUNK: nat := 1024 * 1024
  const DIGEST_BYTES: nat := 32

  function Min(a: nat, b: nat): nat {
    if a <= b then a else b
  }

  /** What an undisturbed inspection of a path answers. */
  function Inspected(sha: seq<byte> -> seq<byte>, file: Option<File>, size: int, digest: seq<byte>): Inspection {
    if size < 0 || |digest| != DIGEST_BYTES then Unsafe
    else if file.None? then MissingFile
    else if |file.value.data| == size && sha(file.value.data) == digest then Valid
    else Mismatch
  }

  /**
   * The temp and final path of one object id, with one writer, in a shard directory under the spool root.
   * `settled` holds the states the final path may be in after a power loss.
   */
  class Spool {
    const sha: seq<byte> -> seq<byte>
    var root: Entry
    var shard: Entry
    var temp: Option<File>
    var final: Option<File>
    var settled: set<Option<File>>
    var fates: seq<Fate>
    /** How many system calls so far failed, or transferred nothing. */
    ghost var trouble: nat
    /** What failed so far. */
    ghost var failed: Failures
    /** Whether the last directory fsync took effect. */
    ghost var synced: bool

    /** A spool as found at a start: what is there is settled. */
    constructor (
      sha: seq<byte> -> seq<byte>, hasRoot: bool, hasShard: bool, temp: Option<File>, final: Option<File>,
      fates: seq<Fate>)
      requires (hasShard ==> hasRoot) && (temp.Some? || final.Some? ==> hasShard)
      ensures this.sha == sha && this.temp == temp && this.final == final && settled == {final}
      ensures root == (if hasRoot then SettledEntry else NoEntry) && shard == (if hasShard then SettledEntry else NoEntry)
      ensures this.fates == fates && trouble == 0 && failed == NO_FAILURES && Settling()
    {
      this.sha, this.temp, this.final, this.fates := sha, temp, final, fates;
      root, shard := if hasRoot then SettledEntry else NoEntry, if hasShard then SettledEntry else NoEntry;
      settled, trouble, failed, synced := {final}, 0, NO_FAILURES, false;
    }

    /** Both directories survive a power loss. */
    predicate Durable()
      reads this`root, this`shard
    {
      root == SettledEntry && shard == SettledEntry
    }

    /** A directory exists before what is in it, and a power loss may leave the state as it stands, or no directory. */
    ghost predicate Settling()
      reads this
    {
      && final in settled && (!Durable() ==> None in settled)
      && (root == NoEntry ==> shard == NoEntry) && (shard == NoEntry ==> temp == None && settled == {None})
    }

    /** Every planned call succeeds and transfers something. */
    ghost predicate AllCalm()
      reads this`fates
    {
      forall i :: 0 <= i < |fates| ==> Calm(fates[i])
    }

    // --- system calls --------------------------------------------------------------------------

    /** Past the planned fates every call succeeds, one byte at a time. */
    method Next(ghost call: Call) returns (fate: Fate)
      modifies this`fates, this`trouble, this`failed
      ensures trouble == old(trouble) + if Calm(fate) then 0 else 1
      ensures FailedAs(old(failed), failed, Failure(fate.how)) && (!fate.how.Fine? ==> failed.last == Some(call))
      ensures old(AllCalm()) ==> AllCalm() && Calm(fate)
    {
      fate := if fates == [] then Fate(Fine, true, 1) else fates[0];
      if fates != [] { fates := fates[1..]; }
      if !Calm(fate) { trouble := trouble + 1; }
      failed := match fate.how
        case Fine => failed
        case Unavailable => failed.(unavailable := failed.unavailable + 1, last := Some(call))
        case Interrupt => failed.(interrupts := failed.interrupts + 1, last := Some(call))
        case Stop => failed.(stops := failed.stops + 1, last := Some(call));
    }

    /** A call that changes nothing: close, lstat, fstat. */
    method Look(ghost call: Call) returns (r: Sys)
      modifies this`fates, this`trouble, this`failed
      ensures r in {Done, OsError, Interrupted, Stopped}
      ensures FailedAs(old(failed), failed, r) && (r in {OsError, Interrupted, Stopped} ==> failed.last == Some(call))
      ensures old(AllCalm()) ==> AllCalm() && trouble == old(trouble)
      ensures trouble >= old(trouble) && (trouble == old(trouble) ==> r == Done)
      ensures r != Done ==> trouble > old(trouble)
    {
      var fate := Next(call);
      r := Failure(fate.how);
    }

    /** O_CREAT | O_EXCL. */
    method OpenTemp() returns (r: Sys)
      requires shard != NoEntry
      modifies this`temp, this`fates, this`trouble, this`failed
      ensures r in {Done, Exists, OsError, Interrupted, Stopped}
      ensures r == Done ==> old(temp).None? && temp == Some(File([], false))
      ensures r == Exists ==> old(temp).Some? && temp == old(temp)
      ensures FailedAs(old(failed), failed, r) && (r in {OsError, Interrupted, Stopped} ==> failed.last == Some(OnCreate))
      ensures old(AllCalm()) ==> AllCalm() && trouble == old(trouble)
      ensures trouble >= old(trouble) && (trouble == old(trouble) ==> r == if old(temp).Some? then Exists else Done)
      ensures r !in {Done, Exists} ==> trouble > old(trouble)
    {
      var fate := Next(OnCreate);
      var existed := temp.Some?;
      if !existed && (fate.how.Fine? || fate.applied) {
        temp := Some(File([], false));
      }
      r := if fate.how.Fine? && existed then Exists else Failure(fate.how);
    }

    method WriteSome(chunk: seq<byte>) returns (r: Sys, n: nat)
      requires temp.Some?
      modifies this`temp, this`fates, this`trouble, this`failed
      ensures r in {Done, OsError, Interrupted, Stopped} && n <= |chunk| && temp.Some?
      ensures r == Done ==> temp == Some(File(old(temp).value.data + chunk[..n], false))
      ensures FailedAs(old(failed), failed, r) && (r in {OsError, Interrupted, Stopped} ==> failed.last == Some(OnWrite))
      ensures old(AllCalm()) ==> AllCalm() && trouble == old(trouble)
      ensures trouble >= old(trouble) && (trouble == old(trouble) && chunk != [] ==> r == Done && n > 0)
      ensures r != Done || (n == 0 && chunk != []) ==> trouble > old(trouble)
    {
      var fate := Next(OnWrite);
      n := Min(fate.count, |chunk|);
      if fate.how.Fine? || fate.applied {
        temp := Some(File(temp.value.data + chunk[..n], false));
      }
      r := Failure(fate.how);
    }

    method FsyncTemp() returns (r: Sys)
      requires temp.Some?
      modifies this`temp, this`fates, this`trouble, this`failed
      ensures r in {Done, OsError, Interrupted, Stopped}
      ensures r == Done ==> temp == Some(File(old(temp).value.data, true))
      ensures FailedAs(old(failed), failed, r) && (r in {OsError, Interrupted, Stopped} ==> failed.last == Some(OnSync))
      ensures old(AllCalm()) ==> AllCalm() && trouble == old(trouble)
      ensures trouble >= old(trouble) && (trouble == old(trouble) ==> r == Done)
      ensures r != Done ==> trouble > old(trouble)
    {
      var fate := Next(OnSync);
      if fate.how.Fine? || fate.applied {
        temp := Some(File(temp.value.data, true));
      }
      r := Failure(fate.how);
    }

    /** os.replace of temp onto final: atomic, and settled only by a later directory fsync. */
    method Replace() returns (r: Sys)
      requires temp.Some?
      requires Settling()
      modifies this`temp, this`final, this`settled, this`fates, this`trouble, this`failed
      ensures Settling()
      ensures r in {Done, OsError, Interrupted, Stopped}
      ensures (temp == None && final == old(temp) && settled == old(settled) + {old(temp)})
              || (r != Done && temp == old(temp) && final == old(final) && settled == old(settled))
      ensures FailedAs(old(failed), failed, r) && (r in {OsError, Interrupted, Stopped} ==> failed.last == Some(OnRename))
      ensures old(AllCalm()) ==> AllCalm() && trouble == old(trouble)
      ensures trouble >= old(trouble) && (trouble == old(trouble) ==> r == Done)
      ensures r != Done ==> trouble > old(trouble)
    {
      var fate := Next(OnRename);
      if fate.how.Fine? || fate.applied {
        settled := settled + {temp};
        temp, final := None, temp;
      }
      r := Failure(fate.how);
    }

    /** The fsync of the shard directory: an OSError of its own is swallowed, and no parent directory is synced. */
    method FsyncDirectory() returns (r: Sys)
      requires Settling()
      modifies this`settled, this`synced, this`fates, this`trouble, this`failed
      ensures Settling()
      ensures r in {Done, Interrupted, Stopped}
      ensures settled == if !synced then old(settled) else if Durable() then {final} else {final, None}
      ensures FailedAs(old(failed), failed, r) || (r == Done && FailedAs(old(failed), failed, OsError))
      ensures failed == old(failed) ==> r == Done && synced
      ensures Elsewhere(old(failed), failed)
      ensures old(AllCalm()) ==> AllCalm() && trouble == old(trouble)
      ensures trouble >= old(trouble) && (trouble == old(trouble) ==> r == Done && synced)
      ensures r != Done ==> trouble > old(trouble)
    {
      var fate := Next(OnSyncDirectory);
      synced := fate.how.Fine? || fate.applied;
      if fate.how.Fine? || fate.applied {
        settled := if Durable() then {final} else {final, None};
      }
      r := if fate.how.Unavailable? then Done else Failure(fate.how);
    }

    /** os.makedirs or os.mkdir of a directory that is not there. */
    method MakeDirectory(isRoot: bool) returns (r: Sys)
      requires Settling() && (if isRoot then root == NoEntry else root != NoEntry && shard == NoEntry)
      modifies this`root, this`shard, this`fates, this`trouble, this`failed
      ensures Settling()
      ensures r in {Done, OsError, Interrupted, Stopped}
      ensures if isRoot then root in {NoEntry, NewEntry} && shard == old(shard)
              else shard in {NoEntry, NewEntry} && root == old(root)
      ensures r == Done ==> (if isRoot then root else shard) == NewEntry
      ensures FailedAs(old(failed), failed, r) && (r in {OsError, Interrupted, Stopped} ==> failed.last == Some(OnMakeDirectory))
      ensures old(AllCalm()) ==> AllCalm() && trouble == old(trouble)
      ensures trouble >= old(trouble) && (trouble == old(trouble) ==> r == Done)
      ensures r != Done ==> trouble > old(trouble)
    {
      var fate := Next(OnMakeDirectory);
      if fate.how.Fine? || fate.applied {
        if isRoot { root := NewEntry; } else { shard := NewEntry; }
      }
      r := Failure(fate.how);
    }

    /** os.unlink of one path. */
    method Unlink(isFinal: bool) returns (r: Sys)
      requires Settling()
      modifies this`temp, this`final, this`settled, this`fates, this`trouble, this`failed
      ensures Settling()
      ensures r in {Done, Missing, OsError, Interrupted, Stopped}
      ensures isFinal ==> temp == old(temp) && final in {None, old(final)} && settled <= old(settled) + {None}
      ensures !isFinal ==> final == old(final) && settled == old(settled) && temp in {None, old(temp)}
      ensures r in {Done, Missing} ==> (if isFinal then final else temp).None?
      ensures r == Missing <==> (if isFinal then old(final) else old(temp)).None? && r !in {OsError, Interrupted, Stopped}
      ensures FailedAs(old(failed), failed, r) && (r in {OsError, Interrupted, Stopped} ==> failed.last == Some(OnRemove))
      ensures old(AllCalm()) ==> AllCalm() && trouble == old(trouble)
      ensures trouble >= old(trouble) && (trouble == old(trouble) ==> r in {Done, Missing})
      ensures r !in {Done, Missing} ==> trouble > old(trouble)
    {
      var fate := Next(OnRemove);
      var existed := if isFinal then final.Some? else temp.Some?;
      if existed && (fate.how.Fine? || fate.applied) {
        if isFinal {
          final, settled := None, settled + {None};
        } else {
          temp := None;
        }
      }
      r := if fate.how.Fine? && !existed then Missing else Failure(fate.how);
    }

    // --- helpers of the source -----------------------------------------------------------------

    /** `_unlink_best_effort`: only an interrupt gets out. */
    method UnlinkBestEffort(isFinal: bool) returns (r: Sys)
      requires Settling()
      modifies this`temp, this`final, this`settled, this`fates, this`trouble, this`failed
      ensures Settling()
      ensures r in {Done, Interrupted, Stopped}
      ensures isFinal ==> temp == old(temp) && final in {None, old(final)} && settled <= old(settled) + {None}
      ensures !isFinal ==> final == old(final) && settled == old(settled) && temp in {None, old(temp)}
      ensures FailedAs(old(failed), failed, r) || (r == Done && FailedAs(old(failed), failed, OsError))
      ensures failed == old(failed) ==> r == Done && (if isFinal then final else temp).None?
      ensures Elsewhere(old(failed), failed)
      ensures old(AllCalm()) ==> AllCalm() && trouble == old(trouble)
      ensures trouble >= old(trouble)
      ensures trouble == old(trouble) ==> r == Done && (if isFinal then final else temp).None?
      ensures r != Done ==> trouble > old(trouble)
    {
      r := Unlink(isFinal);
      if r in {Missing, OsError} { r := Done; }
    }

    /** The read loop: what was read is a prefix, and all of `size` unless a read failed or came back empty. */
    method ReadUpTo(data: seq<byte>, size: nat) returns (r: Sys, bytes: seq<byte>)
      requires size <= |data|
      modifies this`fates, this`trouble, this`failed
      ensures r in {Done, OsError, Interrupted, Stopped}
      ensures |bytes| <= size && bytes == data[..|bytes|]
      ensures FailedAs(old(failed), failed, r) && (r in {OsError, Interrupted, Stopped} ==> failed.last == Some(OnRead))
      ensures old(AllCalm()) ==> AllCalm() && trouble == old(trouble)
      ensures trouble >= old(trouble) && (trouble == old(trouble) ==> r == Done && bytes == data[..size])
      ensures r != Done ==> trouble > old(trouble)
    {
      r, bytes := Done, [];
      while |bytes| < size
        invariant r == Done && failed == old(failed) && |bytes| <= size && bytes == data[..|bytes|] && trouble >= old(trouble)
        invariant old(AllCalm()) ==> AllCalm() && trouble == old(trouble)
        decreases size - |bytes|
      {
        var fate := Next(OnRead);
        if !fate.how.Fine? {
          r := Failure(fate.how);
          return;
        }
        var n := Min(fate.count, Min(READ_CHUNK, size - |bytes|));
        if n == 0 { return; }
        bytes := bytes + data[|bytes|..|bytes| + n];
      }
    }

    /**
     * `inspect_ciphertext_file`. A failed call is answered as such and never as an absent or a wrong file; an answer
     * about the file is true of it, or of the prefix that was read.
     */
    method Inspect(isFinal: bool, size: int, digest: seq<byte>) returns (r: Inspection)
      modifies this`fates, this`trouble, this`failed
      ensures var file := if isFinal then final else temp;
              && (r == Unsafe <==> size < 0 || |digest| != DIGEST_BYTES)
              && (r == MissingFile ==> file.None?)
              && (r == Mismatch ==>
                    && file.Some?
                    && (|file.value.data| != size || exists n :: 0 <= n <= |file.value.data| && sha(file.value.data[..n]) != digest))
              && (r == Valid ==>
                    && file.Some? && |file.value.data| == size
                    && exists n :: 0 <= n <= size && sha(file.value.data[..n]) == digest)
      // Exactly one call failed, and how, or none did and the answer is about the file.
      ensures r == IoUnavailable <==> failed.unavailable == old(failed).unavailable + 1
      ensures r == InspectionInterrupted <==> failed.interrupts == old(failed).interrupts + 1
      ensures r == InspectionStopped <==> failed.stops == old(failed).stops + 1
      ensures r in {Valid, Mismatch, MissingFile, Unsafe} <==> failed == old(failed)
      ensures r !in {Valid, Mismatch, MissingFile, Unsafe} ==>
                failed.last in {Some(OnLstat), Some(OnOpen), Some(OnRead)}
      ensures old(failed).unavailable <= failed.unavailable <= old(failed).unavailable + 1
      ensures old(failed).interrupts <= failed.interrupts <= old(failed).interrupts + 1
      ensures old(failed).stops <= failed.stops <= old(failed).stops + 1
      ensures old(AllCalm()) ==> AllCalm() && trouble == old(trouble)
      ensures trouble >= old(trouble)
      ensures trouble == old(trouble) ==> r == Inspected(sha, if isFinal then final else temp, size, digest)
      ensures r in {InspectionInterrupted, InspectionStopped} ==> trouble > old(trouble)
    {
      if size < 0 || |digest| != DIGEST_BYTES { return Unsafe; }
      var file := if isFinal then final else temp;
      var seen := Look(OnLstat);
      if seen != Done { return FailedInspection(seen); }
      if file.None? { return MissingFile; }
      var handle := Look(OnOpen);
      if handle != Done { return FailedInspection(handle); }
      var data := file.value.data;
      var read, bytes := ReadUpTo(data, |data|);
      if read != Done { return FailedInspection(read); }
      assert data[..|data|] == data;
      assert bytes == data[..|bytes|];
      r := if |data| != size || sha(bytes) != digest then Mismatch else Valid;
    }

    static function FailedInspection(how: Sys): Inspection {
      match how
      case Interrupted => InspectionInterrupted
      case Stopped => InspectionStopped
      case _ => IoUnavailable
    }

    /** `ensure_shard_directory`: the root and the shard are made if they are not there. */
    method EnsureShardDirectory() returns (r: Sys)
      requires Settling()
      modifies this`root, this`shard, this`fates, this`trouble, this`failed
      ensures Settling()
      ensures r in {Done, OsError, Interrupted, Stopped}
      ensures root == old(root) || (old(root) == NoEntry && root == NewEntry)
      ensures shard == old(shard) || (old(shard) == NoEntry && shard == NewEntry)
      ensures r == Done ==> shard != NoEntry
      ensures FailedAs(old(failed), failed, r) && Elsewhere(old(failed), failed)
      ensures old(AllCalm()) ==> AllCalm() && trouble == old(trouble)
      ensures trouble >= old(trouble) && (trouble == old(trouble) ==> r == Done)
      ensures r != Done ==> trouble > old(trouble)
    {
      r := Look(OnLstat);
      if r != Done { return; }
      if root == NoEntry {
        r := MakeDirectory(true);
        if r != Done { return; }
      }
      r := Look(OnLstat);
      if r != Done { return; }
      if shard == NoEntry { r := MakeDirectory(false); }
    }

    // --- the write -----------------------------------------------------------------------------

    /** Exclusive temp file, write loop, fsync. `holds`: the file was opened. */
    method FillTemp(ciphertext: seq<byte>) returns (r: Sys, holds: bool)
      requires shard != NoEntry
      modifies this`temp, this`fates, this`trouble, this`failed
      ensures r in {Done, Exists, Refused, OsError, Interrupted, Stopped}
      ensures r == Done ==> temp == Some(File(ciphertext, true))
      ensures r == Exists ==> old(temp).Some? && temp == old(temp)
      ensures FailedAs(old(failed), failed, r) && Elsewhere(old(failed), failed)
      ensures old(AllCalm()) ==> AllCalm() && trouble == old(trouble)
      ensures trouble >= old(trouble) && (trouble == old(trouble) ==> r == if old(temp).Some? then Exists else Done)
      ensures r !in {Done, Exists} ==> trouble > old(trouble)
    {
      r := OpenTemp();
      holds := r == Done;
      if r != Done { return; }
      var written := 0;
      assert ciphertext[..0] == [];
      while written < |ciphertext|
        invariant r == Done && holds && failed == old(failed) && 0 <= written <= |ciphertext|
        invariant temp == Some(File(ciphertext[..written], false))
        invariant trouble >= old(trouble)
        invariant old(AllCalm()) ==> AllCalm() && trouble == old(trouble)
      {
        var n;
        r, n := WriteSome(ciphertext[written..]);
        if r != Done { return; }
        if n == 0 { return Refused, true; }
        assert ciphertext[..written] + ciphertext[written..][..n] == ciphertext[..written + n];
        written := written + n;
      }
      assert ciphertext[..written] == ciphertext;
      r := FsyncTemp();
    }

    /** Close, verify the temp file, look for a final file again, rename, fsync the directory. */
    method Publish(ciphertext: seq<byte>, digest: seq<byte>) returns (r: Sys)
      requires temp == Some(File(ciphertext, true)) && final == None
      requires |digest| == DIGEST_BYTES && sha(ciphertext) == digest
      requires Settling() && settled == {None}
      modifies this`temp, this`final, this`settled, this`synced, this`fates, this`trouble, this`failed
      ensures Settling()
      ensures r in {Done, Refused, OsError, Interrupted, Stopped}
      ensures temp in {None, old(temp)} && final in {None, Some(File(ciphertext, true))}
      ensures settled <= {None, Some(File(ciphertext, true))}
      ensures r == Done ==> && temp == None && final == Some(File(ciphertext, true))
                            && (settled == {final} <==> synced && Durable())
      ensures failed.interrupts == old(failed).interrupts + (if r == Interrupted then 1 else 0)
      ensures failed.stops == old(failed).stops + (if r == Stopped then 1 else 0)
      ensures r == OsError ==> failed.unavailable == old(failed).unavailable + 1
      ensures r == Done && failed == old(failed) ==> synced
      ensures Elsewhere(old(failed), failed)
      ensures old(AllCalm()) ==> AllCalm() && trouble == old(trouble)
      ensures trouble >= old(trouble) && (trouble == old(trouble) ==> r == Done && synced)
      ensures r != Done ==> trouble > old(trouble)
    {
      r := Look(OnClose);
      if r != Done { return; }
      var verified := Inspect(false, |ciphertext|, digest);
      if verified != Valid {
        r := if verified.InspectionInterrupted? then Interrupted else if verified.InspectionStopped? then Stopped else Refused;
        return;
      }
      r := Look(OnCheckAgain);
      if r != Done { return; }
      if final.Some? { return Refused; }
      r := Replace();
      if r != Done { return; }
      r := FsyncDirectory();
    }

    /** The handlers of the first `try`. */
    method AbandonTemp(cause: Sys, holds: bool) returns (ending: Ending)
      requires cause in {Exists, Refused, OsError, Interrupted, Stopped}
      requires Settling()
      modifies this`temp, this`final, this`settled, this`fates, this`trouble, this`failed
      ensures Settling()
      ensures ending in {AttachmentFailed, WriteInterrupted, WriteStopped}
      ensures final == old(final) && settled == old(settled) && temp in {None, old(temp)} && trouble >= old(trouble)
      ensures ending == WriteStopped <==> cause == Stopped || failed.stops > old(failed).stops
      ensures ending == WriteInterrupted <==>
                ending != WriteStopped && (cause == Interrupted || failed.interrupts > old(failed).interrupts)
      ensures failed.stops >= old(failed).stops && failed.interrupts >= old(failed).interrupts
      ensures Elsewhere(old(failed), failed)
      ensures old(AllCalm()) ==> AllCalm() && trouble == old(trouble)
      ensures cause == Stopped <==> ending == WriteStopped && trouble == old(trouble)
      ensures trouble == old(trouble) && cause != Stopped ==>
                temp == None && ending == if cause == Interrupted then WriteInterrupted else AttachmentFailed
    {
      if cause == Stopped { return WriteStopped; }
      if holds {
        var closed := Look(OnClose);
        if closed == Stopped { return WriteStopped; }
        if closed == Interrupted { return WriteInterrupted; }
      }
      var removed := UnlinkBestEffort(false);
      ending := if removed == Stopped then WriteStopped
                else if removed == Interrupted || cause == Interrupted then WriteInterrupted
                else AttachmentFailed;
    }

    /** The handlers of the `else` branch: they take back the final file unless interrupted. */
    method AbandonPublished(cause: Sys) returns (ending: Ending)
      requires cause in {Refused, OsError, Interrupted, Stopped}
      requires Settling()
      modifies this`temp, this`final, this`settled, this`fates, this`trouble, this`failed
      ensures Settling()
      ensures ending in {AttachmentFailed, WriteInterrupted, WriteStopped}
      ensures final in {None, old(final)} && settled <= old(settled) + {None} && temp in {None, old(temp)}
      ensures ending == WriteStopped <==> cause == Stopped || failed.stops > old(failed).stops
      ensures ending == WriteInterrupted <==>
                ending != WriteStopped && (cause == Interrupted || failed.interrupts > old(failed).interrupts)
      ensures failed.stops >= old(failed).stops && failed.interrupts >= old(failed).interrupts
      ensures Elsewhere(old(failed), failed)
      ensures old(AllCalm()) ==> AllCalm() && trouble == old(trouble)
      ensures trouble >= old(trouble)
      ensures ending == AttachmentFailed && trouble == old(trouble) ==> temp == None && final == None
    {
      if cause == Stopped { return WriteStopped; }
      var removed := UnlinkBestEffort(false);
      if removed == Done && cause != Interrupted { removed := UnlinkBestEffort(true); }
      ending := if removed == Stopped then WriteStopped
                else if removed == Interrupted || cause == Interrupted then WriteInterrupted
                else AttachmentFailed;
    }

    /** Every state of the final path a reader may find, now or after a power loss. */
    ghost predicate FinalIs(allowed: set<Option<File>>)
      reads this
    {
      final in allowed && settled <= allowed
    }

    /** The two `try` blocks with their handlers. */
    method StoreNew(ciphertext: seq<byte>, digest: seq<byte>) returns (ending: Ending)
      requires Settling() && final == None && settled == {None} && shard != NoEntry
      requires |digest| == DIGEST_BYTES && sha(ciphertext) == digest
      modifies this`temp, this`final, this`settled, this`synced, this`fates, this`trouble, this`failed
      ensures Settling() && FinalIs({None, Some(File(ciphertext, true))}) && ending != OsRaised
      ensures ending == Written ==> final == Some(File(ciphertext, true)) && temp == None
      ensures ending == Written ==> (settled == {final} <==> synced && Durable())
      ensures ending == AttachmentFailed && trouble <= old(trouble) + 1 ==> final == None && temp in {None, old(temp)}
      ensures trouble == old(trouble) ==>
                && ending == (if old(temp).None? then Written else AttachmentFailed)
                && temp == None && (ending == Written ==> synced)
      ensures ending == WriteStopped <==> failed.stops > old(failed).stops
      ensures ending == WriteInterrupted <==> ending != WriteStopped && failed.interrupts > old(failed).interrupts
      ensures failed.stops >= old(failed).stops && failed.interrupts >= old(failed).interrupts
      ensures Elsewhere(old(failed), failed)
      ensures old(AllCalm()) ==> AllCalm() && trouble == old(trouble)
      ensures trouble >= old(trouble)
    {
      var filled, holds := FillTemp(ciphertext);
      if filled != Done {
        ending := AbandonTemp(filled, holds);
        return;
      }
      var published := Publish(ciphertext, digest);
      if published != Done {
        ending := AbandonPublished(published);
        return;
      }
      ending := Written;
    }

    /**
     * `write_ciphertext_atomic`. Whatever fails, and wherever the process stops or loses power, the final path is
     * absent, untouched if it existed, or holds exactly the synced ciphertext.
     */
    method WriteCiphertextAtomic(ciphertext: seq<byte>, digest: seq<byte>) returns (ending: Ending)
      requires Settling() && settled <= {None, final}
      modifies this`root, this`shard, this`temp, this`final, this`settled, this`synced, this`fates, this`trouble, this`failed
      ensures Settling() && Durable() == old(Durable())
      ensures old(final).Some? ==> ending != Written && final == old(final) && settled == old(settled) && temp == old(temp)
      ensures old(final).None? ==> FinalIs({None, Some(File(ciphertext, true))})
      // A normal return means stored, but settled iff the fsync took effect and both directories were settled before.
      ensures ending == Written ==> && final == Some(File(ciphertext, true)) && temp == None
                                    && ciphertext != [] && |digest| == DIGEST_BYTES && sha(ciphertext) == digest
      ensures ending == Written ==> (settled == {final} <==> synced && old(Durable()))
      ensures ending == Written ==> (None in settled <==> !synced || !old(Durable()))
      // One failed call, wherever it falls, is cleaned up completely.
      ensures ending == AttachmentFailed && trouble <= old(trouble) + 1 ==> final == old(final) && temp in {None, old(temp)}
      // Undisturbed: stored and synced, or a stale temp file is removed so that the next call stores.
      ensures var ok := ciphertext != [] && |digest| == DIGEST_BYTES && sha(ciphertext) == digest && old(final).None?;
              trouble == old(trouble) ==>
                && ending == (if ok && old(temp).None? then Written else AttachmentFailed)
                && (ok ==> temp == None) && (!ok ==> temp == old(temp))
                && (ending == Written ==> synced)
      // How it ends: stopped or interrupted iff some call was, an OSError only from the look for existing files.
      ensures ending == WriteStopped <==> failed.stops > old(failed).stops
      ensures ending == WriteInterrupted <==> ending != WriteStopped && failed.interrupts > old(failed).interrupts
      ensures failed.stops >= old(failed).stops && failed.interrupts >= old(failed).interrupts
      ensures ending == OsRaised <==>
                && failed.unavailable > old(failed).unavailable && failed.last == Some(OnCheckFree)
                && ending !in {WriteStopped, WriteInterrupted}
      ensures ending == OsRaised ==> final == old(final) && settled == old(settled) && temp == old(temp)
      ensures old(AllCalm()) ==> AllCalm() && trouble == old(trouble)
      ensures trouble >= old(trouble)
    {
      if ciphertext == [] || |digest| != DIGEST_BYTES || sha(ciphertext) != digest { return AttachmentFailed; }
      var made := EnsureShardDirectory();
      if made == Stopped { return WriteStopped; }
      if made == Interrupted { return WriteInterrupted; }
      if made == OsError { return AttachmentFailed; }
      var checked := Look(OnCheckFree);
      if checked == Stopped { return WriteStopped; }
      if checked == Interrupted { return WriteInterrupted; }
      if checked == OsError { return OsRaised; }
      if final.Some? { return AttachmentFailed; }
      ending := StoreNew(ciphertext, digest);
    }

    /** A power loss: an unsettled directory may be gone, with all that was in it; what is left is settled. */
    method PowerLoss(survivor: Option<File>, leftover: Option<File>, keepsRoot: bool, keepsShard: bool)
      requires Settling() && survivor in settled
      requires survivor.Some? ==> keepsRoot && keepsShard
      modifies this`root, this`shard, this`temp, this`final, this`settled
      ensures final == survivor && settled == {final} && Settling()
      ensures old(Durable()) ==> Durable() && temp == leftover
    {
      root := if root == NewEntry && !keepsRoot then NoEntry else if root == NoEntry then NoEntry else SettledEntry;
      shard := if root == NoEntry || shard == NoEntry || (shard == NewEntry && !keepsShard) then NoEntry else SettledEntry;
      temp := if shard == NoEntry then None else leftover;
      final, settled := survivor, {survivor};
    }

    /** Any number of writes of one object, each after a power loss: never a partial file, never a changed one. */
    method RetryAcrossPowerLosses(ciphertext: seq<byte>, digest: seq<byte>, leftovers: seq<Option<File>>)
      requires Settling() && settled <= {None, final}
      modifies this`root, this`shard, this`temp, this`final, this`settled, this`synced, this`fates, this`trouble, this`failed
      ensures FinalIs({None, old(final), Some(File(ciphertext, true))})
      // A settled file is never lost or changed.
      ensures old(final).Some? && old(settled) == {old(final)} ==> FinalIs({old(final)})
    {
      for i := 0 to |leftovers|
        invariant Settling()
        invariant FinalIs({None, old(final), Some(File(ciphertext, true))})
        invariant old(final).Some? && old(settled) == {old(final)} ==> FinalIs({old(final)})
      {
        var survivor :| survivor in settled;
        var keepsRoot: bool, keepsShard: bool := *, *;
        PowerLoss(survivor, leftovers[i], survivor.Some? || keepsRoot, survivor.Some? || keepsShard);
        var _ := WriteCiphertextAtomic(ciphertext, digest);
      }
    }

    // --- read and remove -----------------------------------------------------------------------

    /**
     * `read_ciphertext_verified`. What is returned is the whole final file with the expected size and digest,
     * whatever the reads did; and it is returned under any short reads that do not fail or end early.
     */
    method ReadCiphertextVerified(size: int, digest: seq<byte>) returns (r: Result<seq<byte>, ReadError>)
      modifies this`fates, this`trouble, this`failed
      ensures r.Ok? ==> final.Some? && r.value == final.value.data && |r.value| == size && sha(r.value) == digest
      // An interrupt or a stop is passed on as such; every other failure is the one fixed error.
      ensures r == Err(ReadInterrupted) <==> failed.interrupts == old(failed).interrupts + 1
      ensures r == Err(ReadStopped) <==> failed.stops == old(failed).stops + 1
      ensures failed.unavailable > old(failed).unavailable ==> r == Err(ReadFailed)
      ensures old(failed).interrupts <= failed.interrupts <= old(failed).interrupts + 1
      ensures old(failed).stops <= failed.stops <= old(failed).stops + 1
      ensures old(AllCalm()) ==> AllCalm() && trouble == old(trouble)
      ensures trouble >= old(trouble)
      ensures trouble == old(trouble) ==> (r.Ok? <==> Inspected(sha, final, size, digest) == Valid)
    {
      if size < 0 || |digest| != DIGEST_BYTES { return Err(ReadFailed); }
      var status := Inspect(true, size, digest);
      if status != Valid {
        return Err(if status.InspectionInterrupted? then ReadInterrupted
                   else if status.InspectionStopped? then ReadStopped else ReadFailed);
      }
      var handle := Look(OnOpen);
      if handle != Done { return Err(Raised(handle)); }
      var data := final.value.data;
      var read, bytes := ReadUpTo(data, size);
      if read != Done { return Err(Raised(read)); }
      assert data[..size] == data;
      if |bytes| != size || sha(bytes) != digest { return Err(ReadFailed); }
      r := Ok(bytes);
    }

    static function Raised(how: Sys): ReadError {
      match how
      case Interrupted => ReadInterrupted
      case Stopped => ReadStopped
      case _ => ReadFailed
    }

    /** `safe_unlink_object_file`: success is claimed only when the path is gone. */
    method SafeUnlink(isFinal: bool) returns (r: Unlinked)
      requires Settling()
      modifies this`temp, this`final, this`settled, this`fates, this`trouble, this`failed
      ensures Settling()
      ensures isFinal ==> temp == old(temp) && final in {None, old(final)}
      ensures !isFinal ==> final == old(final) && temp in {None, old(temp)} && settled == old(settled)
      ensures r in {Removed, AlreadyMissing} ==> (if isFinal then final else temp).None?
      ensures r == UnlinkUnavailable <==> failed.unavailable == old(failed).unavailable + 1
      ensures r == UnlinkInterrupted <==> failed.interrupts == old(failed).interrupts + 1
      ensures r == UnlinkStopped <==> failed.stops == old(failed).stops + 1
      ensures r in {Removed, AlreadyMissing} <==> failed == old(failed)
      ensures r == AlreadyMissing ==> (if isFinal then old(final) else old(temp)).None?
      ensures r == Removed ==> (if isFinal then old(final) else old(temp)).Some?
      ensures old(failed).unavailable <= failed.unavailable <= old(failed).unavailable + 1
      ensures old(failed).interrupts <= failed.interrupts <= old(failed).interrupts + 1
      ensures old(failed).stops <= failed.stops <= old(failed).stops + 1
      ensures old(AllCalm()) ==> AllCalm() && trouble == old(trouble)
      ensures trouble >= old(trouble)
      ensures trouble == old(trouble) ==>
                r == if (if isFinal then old(final) else old(temp)).Some? then Removed else AlreadyMissing
    {
      var seen := Look(OnLstat);
      if seen != Done { return FailedUnlink(seen); }
      if (if isFinal then final else temp).None? { return AlreadyMissing; }
      var removed := Unlink(isFinal);
      if removed == Missing { return AlreadyMissing; }
      if removed != Done { return FailedUnlink(removed); }
      var confirmed := Look(OnLstat);
      r := if confirmed == Done then Removed else FailedUnlink(confirmed);
    }

    static function FailedUnlink(how: Sys): Unlinked {
      match how
      case Interrupted => UnlinkInterrupted
      case Stopped => UnlinkStopped
      case _ => UnlinkUnavailable
    }

    /** A stored ciphertext is read back: what the write and the read promise together. */
    method WriteThenRead(ciphertext: seq<byte>, digest: seq<byte>) returns (ending: Ending, back: Result<seq<byte>, ReadError>)
      requires Settling() && settled <= {None, final}
      modifies this`root, this`shard, this`temp, this`final, this`settled, this`synced, this`fates, this`trouble, this`failed
      ensures ending == Written && back.Ok? ==> back.value == ciphertext
      ensures trouble == old(trouble) && ending == Written ==> back == Ok(ciphertext)
    {
      ending := WriteCiphertextAtomic(ciphertext, digest);
      back := ReadCiphertextVerified(|ciphertext|, digest);
    }
  }

  /**
   * The first object of a shard: every call succeeds, the write returns normally, and a power loss may still leave
   * nothing, because the shard directory was made by this call and its parent is never synced.
   */
  method FirstObjectOfShardMayVanish(sha: seq<byte> -> seq<byte>, hasRoot: bool, ciphertext: seq<byte>)
    returns (spool: Spool, ending: Ending)
    requires ciphertext != [] && |sha(ciphertext)| == DIGEST_BYTES
    ensures ending == Written && spool.trouble == 0 && spool.synced
    ensures spool.final == Some(File(ciphertext, true)) && spool.settled == {None, spool.final}
  {
    spool := new Spool(sha, hasRoot, false, None, None, []);
    ending := spool.WriteCiphertextAtomic(ciphertext, sha(ciphertext));
  }
}
