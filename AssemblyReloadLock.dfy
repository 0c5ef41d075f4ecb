/** Locking assembly reloads while the editor plays: a `Locked` flag kept in
    step with the editor's `isPlaying`, taking the reload lock on the way
    into play mode and releasing it on the way out. The editor's lock and
    unlock calls are returned to the caller and counted in ghost fields. */
module AssemblyReloadLock {

  /** A call into the editor's reload lock. */
  datatype HostCall = NoCall | LockReloadAssemblies | UnlockReloadAssemblies

  class DisableAssemblyReloadInPlayMode {
    /** Whether this class holds the reload lock. */
    var locked: bool
    /** Lock calls made so far. */
    ghost var lockCalls: nat
    /** Unlock calls made so far. */
    ghost var unlockCalls: nat

    /** Lock and unlock calls balance: one more lock than unlock exactly
        while the lock is held, so there is never a second lock nor an
        unlock without a lock. */
    ghost predicate Valid()
      reads this
    {
      lockCalls == unlockCalls + (if locked then 1 else 0)
    }

    /** The static field starts false and no call has been made. */
    constructor ()
      ensures Valid() && !locked
      ensures lockCalls == 0 && unlockCalls == 0
    {
      locked := false;
      lockCalls, unlockCalls := 0, 0;
    }

    /** The play-mode callback. Afterwards `locked` equals `isPlaying`; the
        lock is taken only on a change into playing and released only on a
        change out of it, and a callback that finds `locked` already equal
        to `isPlaying` changes nothing and calls nothing. */
    method OnPlaymodeStateChanged(isPlaying: bool) returns (call: HostCall)
      requires Valid()
      modifies this
      ensures Valid() && locked == isPlaying
      ensures call == LockReloadAssemblies <==> isPlaying && !old(locked)
      ensures call == UnlockReloadAssemblies <==> !isPlaying && old(locked)
      ensures old(locked) == isPlaying ==> call == NoCall && unchanged(this)
      ensures lockCalls == old(lockCalls) + (if call == LockReloadAssemblies then 1 else 0)
      ensures unlockCalls == old(unlockCalls) + (if call == UnlockReloadAssemblies then 1 else 0)
    {
      call := NoCall;
      if isPlaying && !locked {
        call := LockReloadAssemblies;
        lockCalls := lockCalls + 1;
        locked := true;
      } else if !isPlaying && locked {
        call := UnlockReloadAssemblies;
        unlockCalls := unlockCalls + 1;
        locked := false;
      }
    }
  }

  /** Any two callbacks in a row with the same `isPlaying`: the second
      makes no call, so only the first can add to the lock or unlock
      count, and the lock stays as the first left it. */
  method RepeatedCallbackIsInert(guard: DisableAssemblyReloadInPlayMode, isPlaying: bool)
    returns (second: HostCall)
    requires guard.Valid()
    modifies guard
    ensures second == NoCall
    ensures guard.Valid() && guard.locked == isPlaying
    ensures guard.lockCalls == old(guard.lockCalls) + (if isPlaying && !old(guard.locked) then 1 else 0)
    ensures guard.unlockCalls == old(guard.unlockCalls) + (if !isPlaying && old(guard.locked) then 1 else 0)
  {
    var first := guard.OnPlaymodeStateChanged(isPlaying);
    second := guard.OnPlaymodeStateChanged(isPlaying);
  }
}
