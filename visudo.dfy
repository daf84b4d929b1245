/**
 * applyVisudo and scheduleRollback of www/panel/visudo.php: a lock file holding
 * the activation time keeps the temporary sudoers block enabled for at most one
 * activation per 600 seconds, and a detached rollback disables the block again
 * 600 seconds later if the lock is still there.
 *
 * The host is the lock directory, the lock file (its text), the sudoers file
 * (its lines) and the rollbacks waiting in the background. The outcomes of
 * mkdir(), of writing the lock, of the sed and `nginx -t` commands and of an
 * exception thrown while running them are parameters; so is time() (`now`).
 * The background `sleep 600` becomes FireRollback, a step the environment takes
 * once the due time has come.
 */
module PrivilegeActivator {
  import opened Wrappers
  import opened Text
  import opened SudoersEdit

  /** VISUDO_DURATION: seconds an activation lasts. */
  const Duration := 600

  const NoLockDirMessage := "No se pudo crear directorio de locks"
  const NoSudoersMessage := "Archivo sudoers inexistente"
  const SedFailedPrefix := "Error activando permisos: "
  const NginxFailedPrefix := "Permisos inválidos: "

  /** What applyVisudo returns: `true`, or a message. */
  datatype Outcome = Enabled | Refused(message: string)

  /** The lock file's content cast to an integer; an unreadable lock reads as
      false, which casts to 0. */
  function LockTimestamp(content: Option<string>): int {
    if content.Some? then IntCast(content.value) else 0
  }

  /** A lock blocks activation when its time is non-zero and less than the
      activation duration ago. */
  predicate LockFresh(ts: int, now: int) {
    ts != 0 && now - ts < Duration
  }

  /** The seconds applyVisudo reports for a fresh lock. */
  function SecondsLeft(ts: int, now: int): int {
    Duration - (now - ts)
  }

  function ActiveMessage(seconds: int): string {
    "Visudo ya activo (" + IntToString(seconds) + " s)"
  }

  /** The lock applyVisudo writes is read back as the time it was written. */
  lemma OwnLockReadBack(t: int)
    ensures LockTimestamp(Some(IntToString(t))) == t
  {
    IntCastRoundTrip(t);
  }

  /** A lock written at a nonzero time `t` refuses activation exactly until
      `t + 600`, and while it does so, with `now >= t`, it reports between 1 and 600
      seconds left, counting down one per second. */
  lemma OwnLockWindow(t: int, now: int)
    requires t != 0
    ensures LockFresh(LockTimestamp(Some(IntToString(t))), now) <==> now < t + Duration
    ensures t <= now < t + Duration ==>
              0 < SecondsLeft(LockTimestamp(Some(IntToString(t))), now) <= Duration
              && SecondsLeft(LockTimestamp(Some(IntToString(t))), now) == t + Duration - now
  {
    OwnLockReadBack(t);
  }

  /** A lock whose text does not start with a number (after blanks and a sign) never
      blocks activation: it reads as 0 and is discarded. */
  lemma UnparsableLockIsStale(content: string, now: int)
    requires var u := SkipCastSpace(content);
             var d := if |u| > 0 && (u[0] == '-' || u[0] == '+') then u[1..] else u;
             d == [] || !IsDigit(d[0])
    ensures !LockFresh(LockTimestamp(Some(content)), now)
  {
    var u := SkipCastSpace(content);
    var d := if |u| > 0 && (u[0] == '-' || u[0] == '+') then u[1..] else u;
    assert LeadingDigits(d) == [];
  }

  /** The lock directory, the lock file's text, the sudoers lines and the due times
      of the pending rollbacks, as one value. */
  datatype HostState = HostState(lockDir: bool, lock: Option<string>, sudoers: Option<seq<string>>, pending: seq<int>)

  /** What applyVisudo at `now` returns and leaves behind, step by step. */
  function Activation(h: HostState, now: int, mkdirOk: bool, lockWriteOk: bool, fault: Option<string>,
                      sedOk: bool, sedOutput: string, nginxOk: bool, nginxOutput: string): (Outcome, HostState)
  {
    if !h.lockDir && !mkdirOk then
      // no lock directory: nothing changes
      (Refused(NoLockDirMessage), h)
    else
      var dir := h.(lockDir := true);
      var ts := LockTimestamp(h.lock);
      if LockFresh(ts, now) then
        (Refused(ActiveMessage(SecondsLeft(ts, now))), dir)
      else
        // a stale or unparsable lock is removed; without sudoers no lock is made
        var unlocked := dir.(lock := None);
        if h.sudoers.None? then
          (Refused(NoSudoersMessage), unlocked)
        else
          // the lock is (re)written with `now` before the edit runs
          var locked := unlocked.(lock := if lockWriteOk then Some(IntToString(now)) else None);
          if fault.Some? then
            // the exception leaves the lock behind and the file untouched
            (Refused(fault.value), locked)
          else if !sedOk then
            (Refused(SedFailedPrefix + sedOutput), unlocked)
          else
            var edited := locked.(sudoers := Some(Activated(h.sudoers.value)));
            if !nginxOk then
              // the lock goes, but the block stays enabled and no rollback is scheduled
              (Refused(NginxFailedPrefix + nginxOutput), edited.(lock := None))
            else
              (Enabled, edited.(pending := h.pending + [now + Duration]))
  }

  /** applyVisudo returns true exactly when every step succeeds past a missing or
      stale lock; it then leaves the block enabled, a rollback due 600 seconds
      later, and (when the write succeeded) a lock that reads back as `now`. Every
      refusal leaves the pending rollbacks as they were. */
  lemma ActivationEnables(h: HostState, now: int, mkdirOk: bool, lockWriteOk: bool, fault: Option<string>,
                          sedOk: bool, sedOutput: string, nginxOk: bool, nginxOutput: string)
    ensures var (r, after) := Activation(h, now, mkdirOk, lockWriteOk, fault, sedOk, sedOutput, nginxOk, nginxOutput);
            && (r == Enabled <==>
                  (h.lockDir || mkdirOk) && !LockFresh(LockTimestamp(h.lock), now) && h.sudoers.Some?
                  && fault.None? && sedOk && nginxOk)
            && (r == Enabled ==>
                  && after.sudoers == Some(Activated(h.sudoers.value))
                  && after.pending == h.pending + [now + Duration]
                  && (lockWriteOk ==> LockTimestamp(after.lock) == now))
            && (r.Refused? ==> after.pending == h.pending)
  {
    OwnLockReadBack(now);
  }

  /** A refusal changes the sudoers file only when `nginx -t` failed after the edit,
      and a successful or refused activation keeps the lock directory once it
      exists. */
  lemma ActivationEditsOnlyAfterSed(h: HostState, now: int, mkdirOk: bool, lockWriteOk: bool, fault: Option<string>,
                                    sedOk: bool, sedOutput: string, nginxOk: bool, nginxOutput: string)
    ensures var (r, after) := Activation(h, now, mkdirOk, lockWriteOk, fault, sedOk, sedOutput, nginxOk, nginxOutput);
            && (after.sudoers != h.sudoers ==> h.sudoers.Some? && fault.None? && sedOk)
            && (r.Refused? && after.sudoers != h.sudoers ==> !nginxOk && r.message == NginxFailedPrefix + nginxOutput)
            && (h.lockDir ==> after.lockDir)
  {
  }

  /** One activation per 600 seconds: after a successful activation at a nonzero
      time `t` whose lock was written, every activation before `t + 600` is refused
      with the seconds left and changes nothing. */
  lemma SecondActivationRefused(h: HostState, t: int, mkdirOk: bool, fault: Option<string>,
                                sedOk: bool, sedOutput: string, nginxOk: bool, nginxOutput: string,
                                now: int, mkdirOk2: bool, lockWriteOk2: bool, fault2: Option<string>,
                                sedOk2: bool, sedOutput2: string, nginxOk2: bool, nginxOutput2: string)
    requires t != 0 && t <= now < t + Duration
    requires Activation(h, t, mkdirOk, true, fault, sedOk, sedOutput, nginxOk, nginxOutput).0 == Enabled
    ensures var after := Activation(h, t, mkdirOk, true, fault, sedOk, sedOutput, nginxOk, nginxOutput).1;
            Activation(after, now, mkdirOk2, lockWriteOk2, fault2, sedOk2, sedOutput2, nginxOk2, nginxOutput2)
              == (Refused(ActiveMessage(t + Duration - now)), after)
  {
    var after := Activation(h, t, mkdirOk, true, fault, sedOk, sedOutput, nginxOk, nginxOutput).1;
    assert after.lock == Some(IntToString(t));
    OwnLockWindow(t, now);
  }

  /** The lock directory, the lock, the sudoers file and the pending rollbacks. */
  class PrivilegeHost {
    /** Whether /var/www/panel/data/locks exists. */
    var lockDir: bool
    /** The text of visudo.lock, None when there is no lock. */
    var lock: Option<string>
    /** The lines of /etc/sudoers.d/nginx-dash, None when the file is missing. */
    var sudoers: Option<seq<string>>
    /** The due times of the rollbacks sleeping in the background. */
    var pending: seq<int>

    constructor (lockDir: bool, lock: Option<string>, sudoers: Option<seq<string>>)
      ensures this.lockDir == lockDir && this.lock == lock && this.sudoers == sudoers && pending == []
    {
      this.lockDir := lockDir;
      this.lock := lock;
      this.sudoers := sudoers;
      pending := [];
    }

    /** The host as a value. */
    function State(): HostState
      reads this
    {
      HostState(lockDir, lock, sudoers, pending)
    }

    /** applyVisudo() at time `now`.
        - `mkdirOk`: mkdir of the lock directory succeeds (when needed);
        - `lockWriteOk`: file_put_contents of the lock succeeds; a failure is not
          checked and the activation goes on without a lock;
        - `fault`: an exception with that message escapes the sed exec;
        - `sedOk`/`sedOutput`, `nginxOk`/`nginxOutput`: exit status zero and the
          joined output lines of the two commands. */
    method ApplyVisudo(now: int, mkdirOk: bool, lockWriteOk: bool, fault: Option<string>,
                       sedOk: bool, sedOutput: string, nginxOk: bool, nginxOutput: string) returns (r: Outcome)
      modifies this
      ensures (r, State()) == Activation(old(State()), now, mkdirOk, lockWriteOk, fault, sedOk, sedOutput, nginxOk, nginxOutput)
    {
      if !lockDir {
        if !mkdirOk {
          return Refused(NoLockDirMessage);
        }
        lockDir := true;
      }
      if lock.Some? {
        var ts := LockTimestamp(lock);
        if LockFresh(ts, now) {
          var remaining := SecondsLeft(ts, now);
          return Refused(ActiveMessage(remaining));
        }
        lock := None;
      }
      if sudoers.None? {
        return Refused(NoSudoersMessage);
      }
      if lockWriteOk {
        lock := Some(IntToString(now));
      }
      if fault.Some? {
        return Refused(fault.value);
      }
      if !sedOk {
        lock := None;
        return Refused(SedFailedPrefix + sedOutput);
      }
      sudoers := Some(Activated(sudoers.value));
      if !nginxOk {
        lock := None;
        return Refused(NginxFailedPrefix + nginxOutput);
      }
      ScheduleRollback(now);
      return Enabled;
    }

    /** scheduleRollback(): a background job that wakes up 600 seconds from now. */
    method ScheduleRollback(now: int)
      modifies this
      ensures pending == old(pending) + [now + Duration]
      ensures lockDir == old(lockDir) && lock == old(lock) && sudoers == old(sudoers)
    {
      pending := pending + [now + Duration];
    }

    /** The `k`-th background job wakes up at `now`: if a lock exists (whoever wrote
        it), the block is disabled again (when sed succeeds) and the lock removed;
        otherwise the job does nothing. The job then ends. */
    method FireRollback(k: nat, now: int, sedOk: bool)
      requires k < |pending| && pending[k] <= now
      modifies this
      ensures pending == old(pending)[..k] + old(pending)[k + 1..]
      ensures lockDir == old(lockDir)
      ensures old(lock).None? ==> lock == old(lock) && sudoers == old(sudoers)
      ensures old(lock).Some? ==>
                lock.None?
                && sudoers == (if sedOk && old(sudoers).Some? then Some(RolledBack(old(sudoers).value)) else old(sudoers))
    {
      pending := pending[..k] + pending[k + 1..];
      if lock.Some? {
        if sedOk && sudoers.Some? {
          sudoers := Some(RolledBack(sudoers.value));
        }
        lock := None;
      }
    }
  }
}
