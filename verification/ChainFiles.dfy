/**
 The lock-file primitives as the commands call them (bin/_chain_overnight/sentinel.py,
 bin/_chain_pause/sentinel.py). Run without interference, each leaves the files as its steps in
 ChainProtocol do, one after the other; ChainMutex and ChainPauses say what holds when the steps
 of several processes interleave.
 */
module ChainFiles {
  import opened Optional
  import opened ChainProtocol

  datatype AcquireResult = Acquired | Denied(holder: LockContent) | WriteFailed

  datatype ReleaseResult = Released | Absent | ChainIdMismatch(found: LockContent)

  datatype PauseError = AlreadyHeld | PauseWriteFailed | NotThere | PauseMismatch(found: ChainId) | Corrupt

  class PlanDir {
    var lock: Option<LockFile>
    var pause: Option<PauseFile>

    constructor ()
      ensures lock == None && pause == None
    {
      lock, pause := None, None;
    }

    /** O_EXCL create, then write and fsync; a failure of either removes the file so that a retry can succeed. */
    method Acquire(pid: Pid, chain: ChainId, writeOk: bool, syncOk: bool, unlinkOk: bool) returns (r: AcquireResult)
      modifies this`lock
      ensures r.Acquired? <==> old(lock).None? && writeOk && syncOk
      ensures r.Denied? <==> old(lock).Some?
      ensures r.Denied? ==> r.holder == old(lock).value.content
      ensures var d := Driver(chain, Creating, 2, PhaseSuccess, true);
        var created := DriverLock(old(lock), pid, d, TryCreate);
        var written := DriverLock(created, pid, d, Write(writeOk));
        lock == if old(lock).Some? then created
                else if writeOk && syncOk then DriverLock(written, pid, d, Sync(true))
                else DriverLock(written, pid, d, Clean(unlinkOk))
      ensures r.Acquired? ==> lock == Some(LockFile(pid, Stamped(chain, pid)))
      ensures r.WriteFailed? && unlinkOk ==> lock == None
    {
      if lock.Some? {
        return Denied(lock.value.content);
      }
      lock := Some(LockFile(pid, Blank));
      if writeOk {
        lock := Some(LockFile(pid, Stamped(chain, pid)));
      }
      if !writeOk || !syncOk {
        if unlinkOk {
          lock := None;
        }
        return WriteFailed;
      }
      r := Acquired;
    }

    /** Removes the lock exactly when it is stamped with this chain id; a lock that is absent is no error. */
    method Release(chain: ChainId) returns (r: ReleaseResult)
      modifies this`lock
      ensures r.Released? <==> Mine(old(lock), chain)
      ensures r.Absent? <==> old(lock).None?
      ensures r.ChainIdMismatch? ==> r.found == old(lock).value.content
      ensures lock == if r.Released? then None else old(lock)
    {
      if lock.None? {
        return Absent;
      }
      var found := lock.value.content;
      if !found.Stamped? || found.chain != chain {
        return ChainIdMismatch(found);
      }
      lock := None;
      r := Released;
    }

    method AcquirePause(pid: Pid, chain: ChainId, writeOk: bool, syncOk: bool, unlinkOk: bool)
        returns (r: Option<PauseError>)
      modifies this`pause
      ensures r == Some(AlreadyHeld) <==> old(pause).Some?
      ensures r.None? <==> old(pause).None? && writeOk && syncOk
      ensures var at := pc => Pauser(pc, chain);
        var created := PauserPause(old(pause), pid, at(PCreate), true);
        var written := PauserPause(created, pid, at(PWrite), writeOk);
        pause == if old(pause).Some? then created
                 else if writeOk && syncOk then PauserPause(written, pid, at(PSync), true)
                 else PauserPause(written, pid, at(PClean), unlinkOk)
      ensures r.None? ==> IsHeld(pause) && pause.value == PauseFile(pid, PausedFor(chain))
    {
      if pause.Some? {
        return Some(AlreadyHeld);
      }
      pause := Some(PauseFile(pid, Unwritten));
      if writeOk {
        pause := Some(PauseFile(pid, PausedFor(chain)));
      }
      if !writeOk || !syncOk {
        if unlinkOk {
          pause := None;
        }
        return Some(PauseWriteFailed);
      }
      r := None;
    }

    /** Strict, unlike Release: a missing or unreadable sentinel is an error, and nothing is removed on any error. */
    method ReleasePause(chain: ChainId) returns (r: Option<PauseError>)
      modifies this`pause
      ensures r.None? <==> IsHeld(old(pause)) && old(pause).value.content.chain == chain
      ensures r == Some(NotThere) <==> old(pause).None?
      ensures r.Some? && r.value.PauseMismatch? ==> old(pause).value.content == PausedFor(r.value.found)
      ensures r == Some(Corrupt) <==> old(pause).Some? && !IsHeld(old(pause))
      ensures pause == if r.None? then None else old(pause)
    {
      if pause.None? {
        return Some(NotThere);
      }
      match pause.value.content
      case Unwritten =>
        return Some(Corrupt);
      case PausedFor(found) =>
        if found != chain {
          return Some(PauseMismatch(found));
        }
        pause := None;
        r := None;
    }

    /** Removal without a chain check; None is an error of the unlink, which the caller sees. */
    method ReleaseIfPresent(unlinkOk: bool) returns (removed: Option<bool>)
      modifies this`pause
      ensures removed == if old(pause).None? then Some(false) else if unlinkOk then Some(true) else None
      ensures pause == DriverPause(old(pause), FlushPause(unlinkOk))
      ensures removed.Some? ==> pause == None
    {
      if pause.None? {
        return Some(false);
      }
      if !unlinkOk {
        return None;
      }
      pause := None;
      removed := Some(true);
    }
  }

  /** What acquire wrote, release under the same chain id removes, and under another one leaves alone: the
      round trip of the running lock. */
  method RoundTrip(dir: PlanDir, pid: Pid, chain: ChainId, other: ChainId)
      returns (first: ReleaseResult, second: ReleaseResult)
    requires dir.lock == None && other != chain
    modifies dir
    ensures first.ChainIdMismatch? && second.Released? && dir.lock == None
    ensures first.found == Stamped(chain, pid)
  {
    var a := dir.Acquire(pid, chain, true, true, true);
    first := dir.Release(other);
    second := dir.Release(chain);
  }
}
