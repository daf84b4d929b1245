/**
 * The visudo permission grants of www/panel/auth.php: a JSON list of
 * `{session, usuario_id, expires, granted_at | renewed_at}` records in
 * permissions.json. A grant lasts 1800 seconds and is renewed in place when the
 * session already holds one.
 *
 * The file is modelled by what json_decode() makes of it: absent, not a list,
 * or a list of records whose keys may each be missing. Failures of mkdir(),
 * file_get_contents() and file_put_contents() are oracle parameters; a failed
 * write leaves the file as it was. time() is `now`, date() is `stamp`, and
 * session_id() is `sid`; `userId` is `$_SESSION['usuario_id']` (None when unset).
 */
module GrantStore {
  import opened Wrappers

  /** Seconds a grant lasts. */
  const GrantLifetime := 1800

  const NotVerifiedMessage := "Debes verificar tu identidad con Telegram primero"

  /** One record of the list; a missing key is None. */
  datatype Grant = Grant(
    session: Option<string>,
    userId: Option<int>,
    expires: Option<int>,
    grantedAt: Option<string>,
    renewedAt: Option<string>)

  /** permissions.json as json_decode(…, true) sees it. */
  datatype PermissionsFile = Absent | NotAList | Records(grants: seq<Grant>)

  /** The outcome of requireVisudoPermission: it returns true or throws. */
  datatype Gate = Allowed | Thrown(message: string)

  /** A record that still counts at `now`: it has an expiry, and that expiry is not
      before `now`. */
  predicate Live(g: Grant, now: int) {
    g.expires.Some? && g.expires.value >= now
  }

  /** A record that grants `sid` permission at `now`. */
  predicate LiveFor(g: Grant, sid: string, now: int) {
    g.session == Some(sid) && Live(g, now)
  }

  /** Some record grants `sid` permission at `now`. */
  predicate HasPermission(gs: seq<Grant>, sid: string, now: int) {
    exists i :: 0 <= i < |gs| && LiveFor(gs[i], sid, now)
  }

  /** No session owns two records. */
  predicate SessionsUnique(gs: seq<Grant>) {
    forall i, j :: 0 <= i < j < |gs| && gs[i].session.Some? ==> gs[i].session != gs[j].session
  }

  /** The array_filter of expired or expiry-less records, order kept. */
  function Purged(gs: seq<Grant>, now: int): (r: seq<Grant>)
    ensures |r| <= |gs|
    ensures forall g :: g in r <==> g in gs && Live(g, now)
    ensures SessionsUnique(gs) ==> SessionsUnique(r)
  {
    if gs == [] then []
    else
      var rest := Purged(gs[1..], now);
      assert SessionsUnique(gs) && gs[0].session.Some? ==> forall g :: g in gs[1..] ==> g.session != gs[0].session by {
        if SessionsUnique(gs) && gs[0].session.Some? {
          forall g | g in gs[1..]
            ensures g.session != gs[0].session
          {
            var j :| 0 <= j < |gs[1..]| && gs[1..][j] == g;
            assert gs[j + 1] == g;
          }
        }
      }
      if Live(gs[0], now) then [gs[0]] + rest else rest
  }

  /** The array_filter of revokeVisudoPermission: every record of `sid` goes. */
  function WithoutSession(gs: seq<Grant>, sid: string): (r: seq<Grant>)
    ensures |r| <= |gs|
    ensures forall g :: g in r <==> g in gs && g.session != Some(sid)
    ensures SessionsUnique(gs) ==> SessionsUnique(r)
  {
    if gs == [] then []
    else
      var rest := WithoutSession(gs[1..], sid);
      assert SessionsUnique(gs) && gs[0].session.Some? ==> forall g :: g in gs[1..] ==> g.session != gs[0].session by {
        if SessionsUnique(gs) && gs[0].session.Some? {
          forall g | g in gs[1..]
            ensures g.session != gs[0].session
          {
            var j :| 0 <= j < |gs[1..]| && gs[1..][j] == g;
            assert gs[j + 1] == g;
          }
        }
      }
      if gs[0].session != Some(sid) then [gs[0]] + rest else rest
  }

  /** The record the by-reference foreach renews: the first one of `sid`. */
  function FirstOf(gs: seq<Grant>, sid: string): (r: Option<nat>)
    ensures r.Some? ==> r.value < |gs| && gs[r.value].session == Some(sid)
                        && forall j :: 0 <= j < r.value ==> gs[j].session != Some(sid)
    ensures r.None? ==> forall j :: 0 <= j < |gs| ==> gs[j].session != Some(sid)
  {
    if gs == [] then None
    else if gs[0].session == Some(sid) then Some(0)
    else match FirstOf(gs[1..], sid)
      case None => None
      case Some(k) => Some(k + 1)
  }

  /** The list grantVisudoPermission writes: purge, then renew the session's first
      record or append a new one. */
  function Granted(gs: seq<Grant>, sid: string, userId: int, now: int, stamp: string): seq<Grant> {
    var p := Purged(gs, now);
    match FirstOf(p, sid)
    case Some(k) => p[k := p[k].(expires := Some(now + GrantLifetime), renewedAt := Some(stamp))]
    case None => p + [Grant(Some(sid), Some(userId), Some(now + GrantLifetime), Some(stamp), None)]
  }

  /** What getVisudoPermissionTimeRemaining reports: the first record of the
      session that has an expiry decides, and only a positive remainder counts. */
  function Remaining(gs: seq<Grant>, sid: string, now: int): (r: Option<int>)
    ensures r.Some? ==> r.value > 0 && exists i :: 0 <= i < |gs| && LiveFor(gs[i], sid, now) && r.value == gs[i].expires.value - now
  {
    if gs == [] then None
    else if gs[0].session == Some(sid) && gs[0].expires.Some? then
      (if gs[0].expires.value - now > 0 then Some(gs[0].expires.value - now) else None)
    else
      var r := Remaining(gs[1..], sid, now);
      assert r.Some? ==> exists i :: 0 <= i < |gs| && LiveFor(gs[i], sid, now) && r.value == gs[i].expires.value - now by {
        if r.Some? {
          var i :| 0 <= i < |gs[1..]| && LiveFor(gs[1..][i], sid, now) && r.value == gs[1..][i].expires.value - now;
          assert gs[i + 1] == gs[1..][i];
        }
      }
      r
  }

  // ------------------------------------------------------------------------
  // Properties of the list operations.

  /** After a grant at `now` the session holds permission for the full 1800 s. */
  lemma GrantGivesPermission(gs: seq<Grant>, sid: string, userId: int, now: int, stamp: string, t: int)
    requires t <= now + GrantLifetime
    ensures HasPermission(Granted(gs, sid, userId, now, stamp), sid, t)
  {
    var p := Purged(gs, now);
    var r := Granted(gs, sid, userId, now, stamp);
    match FirstOf(p, sid)
    case Some(k) =>
      assert LiveFor(r[k], sid, t);
    case None =>
      assert LiveFor(r[|p|], sid, t);
  }

  /** A grant keeps "at most one record per session". */
  lemma GrantKeepsSessionsUnique(gs: seq<Grant>, sid: string, userId: int, now: int, stamp: string)
    requires SessionsUnique(gs)
    ensures SessionsUnique(Granted(gs, sid, userId, now, stamp))
  {
    var p := Purged(gs, now);
    match FirstOf(p, sid)
    case Some(k) =>
    case None =>
      var r := Granted(gs, sid, userId, now, stamp);
      forall i, j | 0 <= i < j < |r| && r[i].session.Some?
        ensures r[i].session != r[j].session
      {
        if j == |p| {
          assert r[i] == p[i];
        }
      }
  }

  /** A grant leaves every other session's live records as they were and drops
      its expired ones. */
  lemma GrantKeepsOthers(gs: seq<Grant>, sid: string, userId: int, now: int, stamp: string, g: Grant)
    requires g.session != Some(sid)
    ensures g in Granted(gs, sid, userId, now, stamp) <==> g in gs && Live(g, now)
  {
    var p := Purged(gs, now);
    var r := Granted(gs, sid, userId, now, stamp);
    match FirstOf(p, sid)
    case Some(k) =>
      if g in p {
        var i :| 0 <= i < |p| && p[i] == g;
        assert r[i] == g;
      }
      if g in r {
        var i :| 0 <= i < |r| && r[i] == g;
        assert p[i] == g;
      }
    case None =>
  }

  lemma SplitFirst<T>(a: seq<T>, b: seq<T>)
    requires a != []
    ensures (a + b)[0] == a[0] && (a + b)[1..] == a[1..] + b
  {
  }

  lemma AppendAssociates<T>(h: seq<T>, x: seq<T>, y: seq<T>)
    ensures h + (x + y) == (h + x) + y
  {
  }

  lemma AppendEmpty<T>(a: seq<T>, b: seq<T>)
    requires a == []
    ensures a + b == b
  {
  }

  /** The purge keeps the order of the list: purging a concatenation purges each
      part in place. With the membership clause of Purged this fixes the result. */
  lemma {:induction false} PurgedAppend(a: seq<Grant>, b: seq<Grant>, now: int)
    ensures Purged(a + b, now) == Purged(a, now) + Purged(b, now)
  {
    if a != [] {
      SplitFirst(a, b);
      PurgedAppend(a[1..], b, now);
      var h := if Live(a[0], now) then [a[0]] else [];
      AppendAssociates(h, Purged(a[1..], now), Purged(b, now));
    } else {
      AppendEmpty(a, b);
    }
  }

  /** Revocation keeps the order of the list in the same way. */
  lemma {:induction false} WithoutSessionAppend(a: seq<Grant>, b: seq<Grant>, sid: string)
    ensures WithoutSession(a + b, sid) == WithoutSession(a, sid) + WithoutSession(b, sid)
  {
    if a != [] {
      SplitFirst(a, b);
      WithoutSessionAppend(a[1..], b, sid);
      var h := if a[0].session != Some(sid) then [a[0]] else [];
      AppendAssociates(h, WithoutSession(a[1..], sid), WithoutSession(b, sid));
    } else {
      AppendEmpty(a, b);
    }
  }

  /** Purging at `now` does not change who holds permission at `now`. */
  lemma PurgeKeepsPermission(gs: seq<Grant>, sid: string, now: int)
    ensures HasPermission(Purged(gs, now), sid, now) == HasPermission(gs, sid, now)
  {
    var p := Purged(gs, now);
    if HasPermission(gs, sid, now) {
      var i :| 0 <= i < |gs| && LiveFor(gs[i], sid, now);
      assert gs[i] in p;
      var j :| 0 <= j < |p| && p[j] == gs[i];
    }
    if HasPermission(p, sid, now) {
      var j :| 0 <= j < |p| && LiveFor(p[j], sid, now);
      assert p[j] in gs;
      var i :| 0 <= i < |gs| && gs[i] == p[j];
    }
  }

  /** After revocation the session holds no permission at any time. */
  lemma RevokeRemovesPermission(gs: seq<Grant>, sid: string, t: int)
    ensures !HasPermission(WithoutSession(gs, sid), sid, t)
  {
    var r := WithoutSession(gs, sid);
    forall i | 0 <= i < |r|
      ensures !LiveFor(r[i], sid, t)
    {
      assert r[i] in r;
    }
  }

  /** A purge that removes nothing returns the list unchanged, so comparing counts
      (as cleanExpiredPermissions does) detects every change. */
  lemma {:induction false} PurgeKeepingCountIsIdentity(gs: seq<Grant>, now: int)
    ensures |Purged(gs, now)| == |gs| <==> Purged(gs, now) == gs
    ensures |Purged(gs, now)| == |gs| <==> forall i :: 0 <= i < |gs| ==> Live(gs[i], now)
  {
    if gs != [] {
      PurgeKeepingCountIsIdentity(gs[1..], now);
      if !Live(gs[0], now) {
        assert |Purged(gs, now)| < |gs|;
      }
    }
  }

  /** With unique sessions the remaining time is reported exactly when the
      permission still holds one second later; at the expiry instant itself the
      permission holds but no time is reported. */
  lemma {:induction false} RemainingMatchesPermission(gs: seq<Grant>, sid: string, now: int)
    requires SessionsUnique(gs)
    ensures Remaining(gs, sid, now).Some? <==> HasPermission(gs, sid, now + 1)
  {
    if gs != [] {
      var tail := gs[1..];
      assert SessionsUnique(tail) by {
        forall i, j | 0 <= i < j < |tail| && tail[i].session.Some?
          ensures tail[i].session != tail[j].session
        {
          assert tail[i] == gs[i + 1] && tail[j] == gs[j + 1];
        }
      }
      RemainingMatchesPermission(tail, sid, now);
      if gs[0].session == Some(sid) {
        // no later record belongs to the session
        assert forall j :: 0 <= j < |tail| ==> tail[j].session != Some(sid) by {
          forall j | 0 <= j < |tail|
            ensures tail[j].session != Some(sid)
          {
            assert gs[0].session != gs[j + 1].session;
          }
        }
        assert !HasPermission(tail, sid, now + 1);
      }
      if HasPermission(gs, sid, now + 1) {
        var i :| 0 <= i < |gs| && LiveFor(gs[i], sid, now + 1);
        if i > 0 {
          assert LiveFor(tail[i - 1], sid, now + 1);
        }
      }
      if HasPermission(tail, sid, now + 1) {
        var i :| 0 <= i < |tail| && LiveFor(tail[i], sid, now + 1);
        assert LiveFor(gs[i + 1], sid, now + 1);
      }
    }
  }

  lemma RemainingAtExpiry(gs: seq<Grant>, sid: string, now: int)
    requires SessionsUnique(gs)
    requires exists i :: 0 <= i < |gs| && gs[i].session == Some(sid) && gs[i].expires == Some(now)
    ensures HasPermission(gs, sid, now) && Remaining(gs, sid, now).None?
  {
    var i :| 0 <= i < |gs| && gs[i].session == Some(sid) && gs[i].expires == Some(now);
    assert LiveFor(gs[i], sid, now);
    RemainingMatchesPermission(gs, sid, now);
    forall j | 0 <= j < |gs|
      ensures !LiveFor(gs[j], sid, now + 1)
    {
      if j < i {
        assert gs[j].session.Some? ==> gs[j].session != gs[i].session;
      } else if j > i {
        assert gs[i].session != gs[j].session;
      }
    }
  }

  // ------------------------------------------------------------------------
  // The file and the functions that read and rewrite it.

  /** The data directory and permissions.json, as one value. */
  datatype PermissionsState = PermissionsState(dataDir: bool, file: PermissionsFile)

  /** What grantVisudoPermission returns and leaves behind. The directory and an
      empty file are created first when missing, and stay created when a later step
      fails; a list that does not decode is replaced by the new grant alone. */
  function AfterGrant(s: PermissionsState, sid: string, userId: Option<int>, now: int, stamp: string,
                      mkdirOk: bool, initOk: bool, readOk: bool, writeOk: bool): (bool, PermissionsState)
  {
    if userId.None? then (false, s)
    else
      var dirOk := s.dataDir || mkdirOk;
      var made := dirOk && (s.file != Absent || initOk);
      var ok := made && readOk && writeOk;
      var decoded := if s.file.Records? then s.file.grants else [];
      var file := if !made then s.file
                  else if ok then Records(Granted(decoded, sid, userId.value, now, stamp))
                  else if s.file == Absent then Records([])
                  else s.file;
      (ok, PermissionsState(dirOk, file))
  }

  /** A reported grant gives the session permission for the next 1800 seconds; a
      failed one adds no record (at most an empty list was created); and the file
      never comes to hold two records of one session. */
  lemma GrantOutcome(s: PermissionsState, sid: string, userId: Option<int>, now: int, stamp: string,
                     mkdirOk: bool, initOk: bool, readOk: bool, writeOk: bool)
    ensures var (ok, after) := AfterGrant(s, sid, userId, now, stamp, mkdirOk, initOk, readOk, writeOk);
            && (ok ==> after.file.Records? && forall t :: t <= now + GrantLifetime ==> HasPermission(after.file.grants, sid, t))
            && (!ok ==> after.file == s.file || (s.file == Absent && after.file == Records([])))
            && ((s.file.Records? ==> SessionsUnique(s.file.grants)) && after.file.Records? ==> SessionsUnique(after.file.grants))
  {
    var (ok, after) := AfterGrant(s, sid, userId, now, stamp, mkdirOk, initOk, readOk, writeOk);
    if ok {
      var decoded := if s.file.Records? then s.file.grants else [];
      forall t | t <= now + GrantLifetime
        ensures HasPermission(after.file.grants, sid, t)
      {
        GrantGivesPermission(decoded, sid, userId.value, now, stamp, t);
      }
      if s.file.Records? ==> SessionsUnique(s.file.grants) {
        GrantKeepsSessionsUnique(decoded, sid, userId.value, now, stamp);
      }
    }
  }

  class PermissionStore {
    /** Whether /var/www/panel/data exists. */
    var dataDir: bool
    var file: PermissionsFile

    constructor (dataDir: bool, file: PermissionsFile)
      ensures this.dataDir == dataDir && this.file == file
    {
      this.dataDir := dataDir;
      this.file := file;
    }

    /** hasVisudoPermission(): a search of the stored list. */
    method HasVisudoPermission(sid: string, userId: Option<int>, now: int, readOk: bool) returns (b: bool)
      ensures b <==> userId.Some? && readOk && file.Records? && HasPermission(file.grants, sid, now)
    {
      if userId.None? || file.Absent? || !readOk || file.NotAList? {
        return false;
      }
      var gs := file.grants;
      var i := 0;
      while i < |gs|
        invariant 0 <= i <= |gs|
        invariant forall j :: 0 <= j < i ==> !LiveFor(gs[j], sid, now)
      {
        if gs[i].session == Some(sid) && gs[i].expires.Some? && gs[i].expires.value >= now {
          return true;
        }
        i := i + 1;
      }
      return false;
    }

    /** requireVisudoPermission(): passes or throws the "verify with Telegram" error. */
    method RequireVisudoPermission(sid: string, userId: Option<int>, now: int, readOk: bool) returns (g: Gate)
      ensures g == Allowed <==> userId.Some? && readOk && file.Records? && HasPermission(file.grants, sid, now)
      ensures g != Allowed ==> g == Thrown(NotVerifiedMessage)
    {
      var ok := HasVisudoPermission(sid, userId, now, readOk);
      if !ok {
        return Thrown(NotVerifiedMessage);
      }
      return Allowed;
    }

    /** The store as a value. */
    function State(): PermissionsState
      reads this
    {
      PermissionsState(dataDir, file)
    }

    /** grantVisudoPermission(). */
    method GrantVisudoPermission(sid: string, userId: Option<int>, now: int, stamp: string,
                                 mkdirOk: bool, initOk: bool, readOk: bool, writeOk: bool) returns (ok: bool)
      modifies this
      ensures (ok, State()) == AfterGrant(old(State()), sid, userId, now, stamp, mkdirOk, initOk, readOk, writeOk)
      ensures old(file).Records? && SessionsUnique(old(file).grants) && file.Records? ==> SessionsUnique(file.grants)
    {
      GrantOutcome(State(), sid, userId, now, stamp, mkdirOk, initOk, readOk, writeOk);
      if userId.None? {
        return false;
      }
      if !dataDir {
        if !mkdirOk {
          return false;
        }
        dataDir := true;
      }
      if file.Absent? {
        if !initOk {
          return false;
        }
        file := Records([]);
      }
      if !readOk {
        return false;
      }
      var data := if file.Records? then file.grants else [];
      data := Purged(data, now);
      var i := 0;
      var found := false;
      while i < |data| && !found
        invariant 0 <= i <= |data|
        invariant !found ==> forall j :: 0 <= j < i ==> data[j].session != Some(sid)
        invariant found ==> 0 < i && FirstOf(data, sid) == Some(i - 1)
      {
        if data[i].session == Some(sid) {
          found := true;
        }
        i := i + 1;
      }
      if found {
        data := data[i - 1 := data[i - 1].(expires := Some(now + GrantLifetime), renewedAt := Some(stamp))];
      } else {
        data := data + [Grant(Some(sid), Some(userId.value), Some(now + GrantLifetime), Some(stamp), None)];
      }
      if !writeOk {
        return false;
      }
      file := Records(data);
      return true;
    }

    /** revokeVisudoPermission(): nothing to revoke is a success; a read failure or
        a failed write is not. */
    method RevokeVisudoPermission(sid: string, readOk: bool, writeOk: bool) returns (ok: bool)
      modifies this
      ensures dataDir == old(dataDir)
      ensures ok == (old(file).Absent? || (readOk && (old(file).NotAList? || writeOk)))
      ensures file == (if old(file).Records? && readOk && writeOk
                       then Records(WithoutSession(old(file).grants, sid)) else old(file))
      ensures old(file).Records? && SessionsUnique(old(file).grants) && file.Records? ==> SessionsUnique(file.grants)
    {
      if file.Absent? {
        return true;
      }
      if !readOk {
        return false;
      }
      if file.NotAList? {
        return true;
      }
      if !writeOk {
        return false;
      }
      file := Records(WithoutSession(file.grants, sid));
      return true;
    }

    /** getVisudoPermissionTimeRemaining(): seconds left on the session's first
        record, or null. */
    method TimeRemaining(sid: string, userId: Option<int>, now: int, readOk: bool) returns (r: Option<int>)
      ensures r == (if userId.Some? && readOk && file.Records? then Remaining(file.grants, sid, now) else None)
    {
      if userId.None? || file.Absent? || !readOk || file.NotAList? {
        return None;
      }
      var gs := file.grants;
      var i := 0;
      while i < |gs|
        invariant 0 <= i <= |gs|
        invariant Remaining(gs[i..], sid, now) == Remaining(gs, sid, now)
      {
        assert gs[i..][1..] == gs[i + 1..];
        if gs[i].session == Some(sid) && gs[i].expires.Some? {
          var left := gs[i].expires.value - now;
          return if left > 0 then Some(left) else None;
        }
        i := i + 1;
      }
      return None;
    }

    /** cleanExpiredPermissions(): rewrites the list without its expired records,
        and only when that removes something; a failed write is ignored. */
    method CleanExpiredPermissions(now: int, readOk: bool, writeOk: bool)
      modifies this
      ensures dataDir == old(dataDir)
      ensures file == (if old(file).Records? && readOk && writeOk && |Purged(old(file).grants, now)| != |old(file).grants|
                       then Records(Purged(old(file).grants, now)) else old(file))
      ensures old(file).Records? && SessionsUnique(old(file).grants) && file.Records? ==> SessionsUnique(file.grants)
    {
      if file.Absent? || !readOk || file.NotAList? {
        return;
      }
      var originalCount := |file.grants|;
      var data := Purged(file.grants, now);
      if |data| != originalCount && writeOk {
        file := Records(data);
      }
    }
  }
}
