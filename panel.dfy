/**
 * The AJAX side of www/html/enginex/index.php (lines 75-305): the per-session
 * rate limiter, the POST and CSRF guards, and the three actions of the
 * privilege-elevation flow over the JSON challenge list challenges.json:
 *
 *   challenge-request  creates a row in the SQLite store (createChallenge),
 *                      purges expired entries of the JSON list and appends one
 *                      for the session, and replies with the code;
 *   challenge-verify   marks the first unused, unexpired entry with the code and
 *                      the session as used;
 *   visudo             needs some used, unexpired entry of the session (and does
 *                      not consume it), activates the sudoers block and then
 *                      grants the session its 1800-second permission.
 *
 * Only the JSON list is ever checked: the SQLite row is written but
 * verifyChallenge is never called. The Telegram message carries the code, but
 * so does the reply to challenge-request. Exceptions are caught at the end and
 * answered with status 500 and the html-escaped message.
 */
module Panel {
  import opened Wrappers
  import opened Text
  import opened Sessions
  import opened ChallengeStore
  import opened GrantStore
  import opened PrivilegeActivator
  import opened SudoersEdit

  const RateLimitMax := 10
  const RateLimitWindow := 60
  /** Seconds a JSON challenge stays valid. */
  const EntryLifetime := 300

  const MethodNotAllowed := "Método no permitido"
  const BadToken := "Token de seguridad inválido"
  const TooManyRequests := "Demasiadas solicitudes. Espera un momento."
  const EnabledMessage := "Permisos habilitados por 10 minutos"

  /** The session key of the index.php rate limiter for an action. */
  function RateKey(action: string): string {
    "rate_limit_" + action
  }

  /** One entry of challenges.json. */
  datatype Entry = Entry(code: string, session: string, expires: int, used: bool, createdAt: string, verifiedAt: Option<string>)

  /** challenges.json as json_decode(…, true) sees it. */
  datatype ChallengesFile = Missing | Corrupt | Entries(list: seq<Entry>)

  /** The JSON reply: `ok: true` with the code or message, a refusal before the
      action runs (status and message as sent), or an exception caught at the end. */
  datatype Reply = Ok(text: string) | Fail(status: int, message: string) | Caught(exception: string)

  /** Outcomes of the file-system calls on a JSON file. */
  datatype FileIo = FileIo(mkdirOk: bool, initOk: bool, readOk: bool, writeOk: bool)

  /** Outcomes of the calls applyVisudo makes, as PrivilegeHost.ApplyVisudo takes them. */
  datatype ActivationIo = ActivationIo(mkdirOk: bool, lockWriteOk: bool, fault: Option<string>,
                                       sedOk: bool, sedOutput: string, nginxOk: bool, nginxOutput: string)

  /** What the environment of one request decides. */
  datatype Env = Env(
    now: int,
    stamp: string,
    codeEntropy: seq<byte>,
    idEntropy: seq<byte>,
    dbOk: bool,
    insertOk: bool,
    challenges: FileIo,
    permissions: FileIo,
    activation: ActivationIo)
  {
    predicate WellFormed() {
      |codeEntropy| == 4 && |idEntropy| == 16
    }
  }

  /** The HTTP status of a reply: a caught exception is answered with 500. */
  function Status(r: Reply): int {
    match r
    case Ok(_) => 200
    case Fail(status, _) => status
    case Caught(_) => 500
  }

  /** The `msg` (or `code`) the reply carries: the text of a caught exception goes
      through htmlspecialchars(…, ENT_QUOTES). */
  function Message(r: Reply): (m: string)
    ensures r.Caught? ==> forall i :: 0 <= i < |m| ==> m[i] != '<' && m[i] != '>' && m[i] != '"' && m[i] != '\''
  {
    match r
    case Ok(text) => text
    case Fail(_, message) => message
    case Caught(exception) => HtmlEscape(exception)
  }

  // ------------------------------------------------------------------------
  // The JSON list.

  /** The entries challenge-request keeps: those that have not expired at `now`,
      in their order. */
  function Fresh(list: seq<Entry>, now: int): (r: seq<Entry>)
    ensures |r| <= |list|
    ensures forall e :: e in r <==> e in list && e.expires >= now
  {
    if list == [] then []
    else if list[0].expires >= now then [list[0]] + Fresh(list[1..], now)
    else Fresh(list[1..], now)
  }

  /** challenge-request keeps the entries in their order: the purge of a
      concatenation purges each part in place. */
  lemma {:induction false} FreshAppend(a: seq<Entry>, b: seq<Entry>, now: int)
    ensures Fresh(a + b, now) == Fresh(a, now) + Fresh(b, now)
  {
    if a != [] {
      assert (a + b)[1..] == a[1..] + b;
      FreshAppend(a[1..], b, now);
    } else {
      assert a + b == b;
    }
  }

  /** The entry added by challenge-request. */
  function NewEntry(code: string, sid: string, now: int, stamp: string): Entry {
    Entry(code, sid, now + EntryLifetime, false, stamp, None)
  }

  /** The condition challenge-verify tests on each entry. */
  predicate Usable(e: Entry, code: string, sid: string, now: int) {
    !e.used && e.code == code && e.expires >= now && e.session == sid
  }

  /** The entry challenge-verify marks: the first usable one. */
  function FirstUsable(list: seq<Entry>, code: string, sid: string, now: int): (r: Option<nat>)
    ensures r.Some? ==> r.value < |list| && Usable(list[r.value], code, sid, now)
                        && forall j :: 0 <= j < r.value ==> !Usable(list[j], code, sid, now)
    ensures r.None? ==> forall j :: 0 <= j < |list| ==> !Usable(list[j], code, sid, now)
  {
    if list == [] then None
    else if Usable(list[0], code, sid, now) then Some(0)
    else match FirstUsable(list[1..], code, sid, now)
      case None => None
      case Some(k) => Some(k + 1)
  }

  /** The list after entry `k` is marked used at `stamp`. */
  function Consumed(list: seq<Entry>, k: nat, stamp: string): seq<Entry>
    requires k < |list|
  {
    list[k := list[k].(used := true, verifiedAt := Some(stamp))]
  }

  /** The condition the visudo action tests: some used, unexpired entry of the session. */
  predicate Authorized(list: seq<Entry>, sid: string, now: int) {
    exists i :: 0 <= i < |list| && list[i].used && list[i].session == sid && list[i].expires >= now
  }

  /** The format check of challenge-verify: exactly six upper-case letters or digits. */
  predicate CodeFormatOk(code: string) {
    |code| == 6 && forall i :: 0 <= i < 6 ==> ('A' <= code[i] <= 'Z' || '0' <= code[i] <= '9')
  }

  // ------------------------------------------------------------------------
  // Properties of the flow.

  /** The code challenge-request hands out passes challenge-verify's checks. */
  lemma IssuedCodePassesChecks(entropy: seq<byte>)
    requires |entropy| == 4
    ensures !PhpEmpty(NormalizeCode(HexCode(entropy)))
    ensures CodeFormatOk(NormalizeCode(HexCode(entropy)))
  {
    IssuedCodeIsNormal(entropy);
    HexCodeShape(entropy);
  }

  /** Right after challenge-request appended an entry, the same session can verify
      its code at any time up to 300 seconds later. */
  lemma RequestedCodeVerifies(list: seq<Entry>, code: string, sid: string, now: int, stamp: string, t: int)
    requires t <= now + EntryLifetime
    ensures FirstUsable(Fresh(list, now) + [NewEntry(code, sid, now, stamp)], code, sid, t).Some?
  {
    var after := Fresh(list, now) + [NewEntry(code, sid, now, stamp)];
    assert Usable(after[|after| - 1], code, sid, t);
  }

  /** A successful verification authorises the session's visudo requests until the
      consumed entry expires, and the entry can never be used again for a
      verification. */
  lemma VerificationAuthorizes(list: seq<Entry>, code: string, sid: string, now: int, stamp: string)
    requires FirstUsable(list, code, sid, now).Some?
    ensures var k := FirstUsable(list, code, sid, now).value;
            && (forall t :: t <= list[k].expires ==> Authorized(Consumed(list, k, stamp), sid, t))
            && (forall code2, sid2, t :: FirstUsable(Consumed(list, k, stamp), code2, sid2, t) != Some(k))
  {
    var k := FirstUsable(list, code, sid, now).value;
    var after := Consumed(list, k, stamp);
    forall t | t <= list[k].expires
      ensures Authorized(after, sid, t)
    {
      assert after[k].used && after[k].session == sid && after[k].expires >= t;
    }
  }

  /** Verification needs an entry of the same session: what another session
      requested never verifies or authorises this one. */
  lemma OtherSessionsDoNotCount(list: seq<Entry>, sid: string, code: string, now: int)
    requires forall i :: 0 <= i < |list| ==> list[i].session != sid
    ensures FirstUsable(list, code, sid, now).None?
    ensures !Authorized(list, sid, now)
  {
  }

  /** The JSON list and its directory. */
  class ChallengeFile {
    /** Whether /var/www/panel/data exists. */
    var dataDir: bool
    var file: ChallengesFile

    constructor (dataDir: bool, file: ChallengesFile)
      ensures this.dataDir == dataDir && this.file == file
    {
      this.dataDir := dataDir;
      this.file := file;
    }
  }

  // ------------------------------------------------------------------------
  // The three actions.

  /** `case 'challenge-request'` for session `sid`. */
  method ChallengeRequest(sid: string, table: ChallengeTable, store: ChallengeFile, env: Env) returns (reply: Reply)
    requires env.WellFormed() && table.Valid()
    modifies table, store
    ensures table.Valid()
    // the SQLite store: purged of expired rows, then the new row when the insert succeeded
    ensures var kept := Unexpired(old(table.rows), env.now);
            var id := RowId(env.idEntropy);
            table.rows == if !env.dbOk then old(table.rows)
                          else if env.insertOk && !HasId(kept, id)
                          then kept + [NewRow(id, HexCode(env.codeEntropy), sid, "visudo", env.now, env.stamp)]
                          else kept
    // once the row is issued, the data directory exists exactly when it did or mkdir succeeded
    ensures env.dbOk && env.insertOk && !HasId(Unexpired(old(table.rows), env.now), RowId(env.idEntropy)) ==>
              store.dataDir == (old(store.dataDir) || env.challenges.mkdirOk)
    ensures var io := env.challenges;
            var issued := env.dbOk && env.insertOk && !HasId(Unexpired(old(table.rows), env.now), RowId(env.idEntropy));
            var dirOk := old(store.dataDir) || io.mkdirOk;
            var created := old(store.file) != Missing || io.initOk;
            var decoded := if old(store.file).Entries? then old(store.file).list else [];
            var code := HexCode(env.codeEntropy);
            if !issued then
              reply == Caught("No se pudo generar el challenge") && store.file == old(store.file) && store.dataDir == old(store.dataDir)
            else if !dirOk then
              reply == Caught("No se pudo crear directorio de datos") && store.file == old(store.file)
            else if !created then
              reply == Caught("No se pudo crear archivo de challenges") && store.file == old(store.file)
            else if !io.readOk || !io.writeOk then
              && reply == Caught(if !io.readOk then "No se pudo leer archivo de challenges" else "No se pudo guardar el challenge")
              && store.file == (if old(store.file) == Missing then Entries([]) else old(store.file))
            else
              && reply == Ok(code)
              && store.file == Entries(Fresh(decoded, env.now) + [NewEntry(code, sid, env.now, env.stamp)])
  {
    var issued := table.CreateChallenge(sid, "visudo", env.now, env.codeEntropy, env.idEntropy, env.stamp, env.dbOk, env.insertOk);
    if issued.None? {
      return Caught("No se pudo generar el challenge");
    }
    var io := env.challenges;
    if !store.dataDir {
      if !io.mkdirOk {
        return Caught("No se pudo crear directorio de datos");
      }
      store.dataDir := true;
    }
    if store.file == Missing {
      if !io.initOk {
        return Caught("No se pudo crear archivo de challenges");
      }
      store.file := Entries([]);
    }
    if !io.readOk {
      return Caught("No se pudo leer archivo de challenges");
    }
    var data := if store.file.Entries? then store.file.list else [];
    data := Fresh(data, env.now);
    data := data + [NewEntry(issued.value.code, sid, env.now, env.stamp)];
    if !io.writeOk {
      return Caught("No se pudo guardar el challenge");
    }
    store.file := Entries(data);
    return Ok(issued.value.code);
  }

  /** The foreach of lines 221-234: the first usable entry is marked used and stamped,
      and the search stops there. */
  method MarkFirstUsable(list: seq<Entry>, code: string, sid: string, now: int, stamp: string)
    returns (found: Option<nat>, data: seq<Entry>)
    ensures found == FirstUsable(list, code, sid, now)
    ensures data == if found.Some? then Consumed(list, found.value, stamp) else list
  {
    data := list;
    found := None;
    var i := 0;
    while i < |data| && found.None?
      invariant 0 <= i <= |data| == |list|
      invariant found.None? ==> data == list && forall j :: 0 <= j < i ==> !Usable(list[j], code, sid, now)
      invariant found.Some? ==> found.value == i - 1 && FirstUsable(list, code, sid, now) == found
                                && data == Consumed(list, i - 1, stamp)
    {
      if !data[i].used && data[i].code == code && data[i].expires >= now && data[i].session == sid {
        FirstUsableAt(list, code, sid, now, i);
        data := data[i := data[i].(used := true, verifiedAt := Some(stamp))];
        found := Some(i);
      }
      i := i + 1;
    }
    if found.None? {
      NoneUsable(list, code, sid, now);
    }
  }

  lemma FirstUsableAt(list: seq<Entry>, code: string, sid: string, now: int, i: nat)
    requires i < |list| && Usable(list[i], code, sid, now)
    requires forall j :: 0 <= j < i ==> !Usable(list[j], code, sid, now)
    ensures FirstUsable(list, code, sid, now) == Some(i)
  {
  }

  lemma NoneUsable(list: seq<Entry>, code: string, sid: string, now: int)
    requires forall j :: 0 <= j < |list| ==> !Usable(list[j], code, sid, now)
    ensures FirstUsable(list, code, sid, now) == None
  {
  }

  /** `case 'challenge-verify'` for session `sid` and the posted code. */
  method ChallengeVerify(sid: string, postedCode: string, store: ChallengeFile, env: Env) returns (reply: Reply)
    modifies store
    ensures store.dataDir == old(store.dataDir)
    ensures var code := NormalizeCode(postedCode);
            if PhpEmpty(code) then
              reply == Caught("Código vacío") && store.file == old(store.file)
            else if !CodeFormatOk(code) then
              reply == Caught("Formato de código inválido") && store.file == old(store.file)
            else if old(store.file) == Missing then
              reply == Caught("No hay challenges disponibles") && store.file == old(store.file)
            else if !env.challenges.readOk then
              reply == Caught("Error leyendo challenges") && store.file == old(store.file)
            else if old(store.file) == Corrupt then
              reply == Caught("Datos de challenges corruptos") && store.file == old(store.file)
            else
              match FirstUsable(old(store.file).list, code, sid, env.now)
              case None =>
                reply == Caught("Código inválido o expirado") && store.file == old(store.file)
              case Some(k) =>
                if env.challenges.writeOk then
                  reply == Ok("") && store.file == Entries(Consumed(old(store.file).list, k, env.stamp))
                else
                  reply == Caught("Error guardando verificación") && store.file == old(store.file)
  {
    var code := NormalizeCode(postedCode);
    if PhpEmpty(code) {
      return Caught("Código vacío");
    }
    if !CodeFormatOk(code) {
      return Caught("Formato de código inválido");
    }
    if store.file == Missing {
      return Caught("No hay challenges disponibles");
    }
    if !env.challenges.readOk {
      return Caught("Error leyendo challenges");
    }
    if store.file == Corrupt {
      return Caught("Datos de challenges corruptos");
    }
    var found, data := MarkFirstUsable(store.file.list, code, sid, env.now, env.stamp);
    if found.None? {
      return Caught("Código inválido o expirado");
    }
    if !env.challenges.writeOk {
      return Caught("Error guardando verificación");
    }
    store.file := Entries(data);
    return Ok("");
  }

  /** The foreach of the visudo action: a search for a used, unexpired entry of
      the session that stops at the first one. */
  method FindVerified(list: seq<Entry>, sid: string, now: int) returns (authorized: bool)
    ensures authorized <==> Authorized(list, sid, now)
  {
    authorized := false;
    var i := 0;
    while i < |list| && !authorized
      invariant 0 <= i <= |list|
      invariant !authorized ==> forall j :: 0 <= j < i ==> !(list[j].used && list[j].session == sid && list[j].expires >= now)
      invariant authorized ==> Authorized(list, sid, now)
    {
      if list[i].used && list[i].session == sid && list[i].expires >= now {
        authorized := true;
      }
      i := i + 1;
    }
  }

  /** What `case 'visudo'` replies and leaves behind, given the challenge list as
      it was read, the host and the grant store before the request. */
  function VisudoOutcome(file: ChallengesFile, sid: string, userId: Option<int>, h: HostState, g: PermissionsState, env: Env)
    : (Reply, HostState, PermissionsState)
  {
    if file == Missing then (Caught("No se ha verificado ningún código"), h, g)
    else if !env.challenges.readOk then (Caught("Error leyendo verificaciones"), h, g)
    else if file == Corrupt then (Caught("Datos de verificación corruptos"), h, g)
    else if !Authorized(file.list, sid, env.now) then (Caught("No se ha verificado ningún código válido"), h, g)
    else
      var a := env.activation;
      var (outcome, after) := Activation(h, env.now, a.mkdirOk, a.lockWriteOk, a.fault,
                                         a.sedOk, a.sedOutput, a.nginxOk, a.nginxOutput);
      if outcome.Refused? then
        (Caught(if PhpEmpty(outcome.message) then "Error aplicando visudo" else outcome.message), after, g)
      else
        var p := env.permissions;
        var (granted, stored) := AfterGrant(g, sid, userId, env.now, env.stamp, p.mkdirOk, p.initOk, p.readOk, p.writeOk);
        (if granted then Ok(EnabledMessage) else Caught("Error otorgando permisos"), after, stored)
  }

  /** The guarantees of the visudo action: without a used, unexpired entry of the
      session nothing is activated and nothing granted; the grant store only changes
      after an activation that enabled the block and scheduled its rollback; and
      the enabled reply means that the block is enabled, the rollback is due 600
      seconds later, and the session holds permission for the next 1800 seconds. */
  lemma VisudoGuarantees(file: ChallengesFile, sid: string, userId: Option<int>, h: HostState, g: PermissionsState, env: Env)
    ensures var (reply, h2, g2) := VisudoOutcome(file, sid, userId, h, g, env);
            var verified := file.Entries? && env.challenges.readOk && Authorized(file.list, sid, env.now);
            && (!verified ==> h2 == h && g2 == g && reply.Caught?)
            && (g2 != g ==> verified && h.sudoers.Some? && h2.sudoers == Some(Activated(h.sudoers.value))
                            && h2.pending == h.pending + [env.now + Duration])
            && (reply.Ok? ==>
                  && verified && reply == Ok(EnabledMessage)
                  && h.sudoers.Some? && h2.sudoers == Some(Activated(h.sudoers.value))
                  && h2.pending == h.pending + [env.now + Duration]
                  && g2.file.Records?
                  && forall t :: t <= env.now + GrantLifetime ==> HasPermission(g2.file.grants, sid, t))
  {
    if file.Entries? && env.challenges.readOk && Authorized(file.list, sid, env.now) {
      var a := env.activation;
      ActivationEnables(h, env.now, a.mkdirOk, a.lockWriteOk, a.fault, a.sedOk, a.sedOutput, a.nginxOk, a.nginxOutput);
      if Activation(h, env.now, a.mkdirOk, a.lockWriteOk, a.fault, a.sedOk, a.sedOutput, a.nginxOk, a.nginxOutput).0 == Enabled {
        var p := env.permissions;
        GrantOutcome(g, sid, userId, env.now, env.stamp, p.mkdirOk, p.initOk, p.readOk, p.writeOk);
      }
    }
  }

  /** The end of the visudo action, once a verified entry was found: applyVisudo,
      and grantVisudoPermission only after it returned true. A falsy refusal
      message is replaced by the default one. */
  method ActivateAndGrant(sid: string, userId: Option<int>, host: PrivilegeHost, grants: PermissionStore, env: Env)
    returns (reply: Reply)
    modifies host, grants
    ensures var a := env.activation;
            var (outcome, after) := Activation(old(host.State()), env.now, a.mkdirOk, a.lockWriteOk, a.fault,
                                               a.sedOk, a.sedOutput, a.nginxOk, a.nginxOutput);
            var p := env.permissions;
            var (granted, stored) := AfterGrant(old(grants.State()), sid, userId, env.now, env.stamp,
                                                p.mkdirOk, p.initOk, p.readOk, p.writeOk);
            && host.State() == after
            && (outcome.Refused? ==>
                  && reply == Caught(if PhpEmpty(outcome.message) then "Error aplicando visudo" else outcome.message)
                  && grants.State() == old(grants.State()))
            && (outcome == Enabled ==>
                  && grants.State() == stored
                  && reply == (if granted then Ok(EnabledMessage) else Caught("Error otorgando permisos")))
            && (reply == Ok(EnabledMessage) <==> outcome == Enabled && granted)
    // the grant is only attempted once applyVisudo returned true, which scheduled the rollback
    ensures grants.dataDir != old(grants.dataDir) || grants.file != old(grants.file) ==>
              host.pending == old(host.pending) + [env.now + Duration]
    ensures reply.Ok? ==> reply == Ok(EnabledMessage) && host.pending == old(host.pending) + [env.now + Duration]
  {
    var a := env.activation;
    ghost var before := host.State();
    var result := host.ApplyVisudo(env.now, a.mkdirOk, a.lockWriteOk, a.fault, a.sedOk, a.sedOutput, a.nginxOk, a.nginxOutput);
    ActivationEnables(before, env.now, a.mkdirOk, a.lockWriteOk, a.fault, a.sedOk, a.sedOutput, a.nginxOk, a.nginxOutput);
    if result.Refused? {
      return Caught(if PhpEmpty(result.message) then "Error aplicando visudo" else result.message);
    }
    var p := env.permissions;
    var granted := grants.GrantVisudoPermission(sid, userId, env.now, env.stamp, p.mkdirOk, p.initOk, p.readOk, p.writeOk);
    if !granted {
      return Caught("Error otorgando permisos");
    }
    return Ok(EnabledMessage);
  }

  /** `case 'visudo'` for session `sid` of user `userId`: the JSON list is only
      read, the activation runs, and the permission is granted only after the
      activation returned true. */
  method Visudo(sid: string, userId: Option<int>, store: ChallengeFile, host: PrivilegeHost, grants: PermissionStore, env: Env)
    returns (reply: Reply)
    modifies host, grants
    ensures (reply, host.State(), grants.State()) == VisudoOutcome(store.file, sid, userId, old(host.State()), old(grants.State()), env)
    ensures store.file == old(store.file)
  {
    if store.file == Missing {
      return Caught("No se ha verificado ningún código");
    }
    if !env.challenges.readOk {
      return Caught("Error leyendo verificaciones");
    }
    if store.file == Corrupt {
      return Caught("Datos de verificación corruptos");
    }
    var authorized := FindVerified(store.file.list, sid, env.now);
    if !authorized {
      return Caught("No se ha verificado ningún código válido");
    }
    reply := ActivateAndGrant(sid, userId, host, grants, env);
  }

  /** The AJAX handler for `?ajax=<action>` on an admitted session with id `sid`
      (lines 98-305), which holds a CSRF token since line 45. `postedCode` is
      the posted code, empty when none was posted. */
  method Ajax(action: string, isPost: bool, postedToken: string, postedCode: string, sid: string, s: Session, table: ChallengeTable,
              store: ChallengeFile, host: PrivilegeHost, grants: PermissionStore, env: Env) returns (reply: Reply)
    requires env.WellFormed() && table.Valid()
    requires s.csrfToken.Some?
    modifies s, table, store, host, grants
    ensures table.Valid()
    // the two state-changing actions are POST-only, and nothing happens otherwise
    ensures (action == "challenge-verify" || action == "visudo") && !isPost ==>
              reply == Fail(405, MethodNotAllowed) && s.rateLimits == old(s.rateLimits)
              && store.file == old(store.file) && host.sudoers == old(host.sudoers)
              && grants.file == old(grants.file) && table.rows == old(table.rows)
    // a POST must carry the session's token
    ensures !((action == "challenge-verify" || action == "visudo") && !isPost)
            && isPost && postedToken != old(s.csrfToken).value ==>
              reply == Fail(403, BadToken) && s.rateLimits == old(s.rateLimits)
              && store.file == old(store.file) && host.sudoers == old(host.sudoers)
              && grants.file == old(grants.file) && table.rows == old(table.rows)
    // past the guards every request counts against the action's rate limit
    ensures var passed := !((action == "challenge-verify" || action == "visudo") && !isPost)
                          && !(isPost && postedToken != old(s.csrfToken).value);
            var key := RateKey(action);
            var d := RateStep(if key in old(s.rateLimits) then Some(old(s.rateLimits)[key]) else None,
                              RateLimitMax, RateLimitWindow, env.now);
            passed ==>
              && s.rateLimits == old(s.rateLimits)[key := d.next]
              && (!d.allowed ==> reply == Fail(429, TooManyRequests) && store.file == old(store.file)
                                 && host.sudoers == old(host.sudoers) && grants.file == old(grants.file))
    // an unknown action that passed the guards is answered as an exception and changes nothing more
    ensures var key := RateKey(action);
            var d := RateStep(if key in old(s.rateLimits) then Some(old(s.rateLimits)[key]) else None,
                              RateLimitMax, RateLimitWindow, env.now);
            action != "challenge-request" && action != "challenge-verify" && action != "visudo"
            && !(isPost && postedToken != old(s.csrfToken).value) && d.allowed ==>
              reply == Caught("Acción inválida") && store.file == old(store.file) && table.rows == old(table.rows)
    // a visudo request past the guards and the rate limit is the visudo action
    ensures var key := RateKey(action);
            var d := RateStep(if key in old(s.rateLimits) then Some(old(s.rateLimits)[key]) else None,
                              RateLimitMax, RateLimitWindow, env.now);
            action == "visudo" && isPost && postedToken == old(s.csrfToken).value && d.allowed ==>
              (reply, host.State(), grants.State())
                == VisudoOutcome(old(store.file), sid, old(s.usuarioId), old(host.State()), old(grants.State()), env)
    // an accepted visudo request enabled the block and scheduled its rollback
    ensures action == "visudo" && reply.Ok? ==>
              && reply == Ok(EnabledMessage) && old(host.sudoers).Some?
              && host.sudoers == Some(Activated(old(host.sudoers).value))
              && host.pending == old(host.pending) + [env.now + Duration]
    // only the visudo action touches the sudoers file and the grants
    ensures action != "visudo" ==> host.sudoers == old(host.sudoers) && host.lock == old(host.lock)
                                   && grants.file == old(grants.file)
    ensures s.usuarioId == old(s.usuarioId) && s.csrfToken == old(s.csrfToken)
  {
    if (action == "challenge-verify" || action == "visudo") && !isPost {
      return Fail(405, MethodNotAllowed);
    }
    if isPost && postedToken != s.csrfToken.value {
      return Fail(403, BadToken);
    }
    var allowed := s.CheckRateLimit(RateKey(action), RateLimitMax, RateLimitWindow, env.now);
    if !allowed {
      return Fail(429, TooManyRequests);
    }
    if action == "challenge-request" {
      reply := ChallengeRequest(sid, table, store, env);
    } else if action == "challenge-verify" {
      reply := ChallengeVerify(sid, postedCode, store, env);
    } else if action == "visudo" {
      ghost var h, g := host.State(), grants.State();
      reply := Visudo(sid, s.usuarioId, store, host, grants, env);
      VisudoGuarantees(store.file, sid, s.usuarioId, h, g, env);
    } else {
      reply := Caught("Acción inválida");
    }
  }
}
