/**
 * The site-editing API of www/html/enginex/api.php: admission and the POST
 * requirement, its own rate limiter (20 calls per 60 seconds under the key
 * "api_rate_limit_<action>"), the permission gate every action except `create`
 * passes through, the `create` name normalisation, and the effect of the seven
 * actions on the two nginx directories.
 *
 * sites-available is a map from file name to content and sites-enabled the set
 * of names that have a link. Every shell command whose exit status the handler
 * checks is an oracle (`Exec`); the commands whose status it ignores (removing
 * the link again after a failed syntax check, the link moves of `rename`, the
 * link removal of `delete`, the reloads of enable, disable, rename and delete)
 * are taken to succeed.
 */
module SiteApi {
  import opened Wrappers
  import opened Text
  import opened Sessions
  import opened GrantStore

  const ApiRateLimitMax := 20
  const ApiRateLimitWindow := 60

  const NoActionMessage := "Acción no especificada"
  const TooManyRequests := "Demasiadas solicitudes. Espera un momento."
  const EmptyFileMessage := "Nombre de archivo vacío"
  const NoSuchFileMessage := "El archivo no existe"
  const TmpFailedMessage := "No se pudo crear archivo temporal"

  /** The session key of the api.php rate limiter for an action. */
  function ApiRateKey(action: string): string {
    "api_rate_limit_" + action
  }

  /** The exit status (zero or not) and the joined output lines of one command. */
  datatype Exec = Exec(ok: bool, output: string)

  /** What the environment of one request decides. */
  datatype ApiIo = ApiIo(
    permissionsReadOk: bool,  // reading permissions.json in hasVisudoPermission
    readOk: bool,             // file_get_contents of the site file
    tmpOk: bool,              // writing the temporary file
    cp: Exec,
    nginx: Exec,              // nginx -t
    reload: Exec,             // systemctl reload nginx, checked by `save` only
    ln: Exec,
    rm: Exec,
    mv: Exec)

  /** The POST fields, None when not set. */
  datatype ApiRequest = ApiRequest(action: Option<string>, file: Option<string>, newName: Option<string>,
                                   content: Option<string>, name: Option<string>)

  /** The JSON reply: `msg` on success, the file `content` for `read`, or a status
      and message. */
  datatype ApiReply = Done(msg: string) | FileContent(content: string) | Error(status: int, msg: string)

  /** An exception caught while the status code is still 200. */
  function Failure(msg: string): ApiReply {
    Error(500, msg)
  }

  // ------------------------------------------------------------------------
  // basename()

  /** The path without its trailing slashes. */
  function DropTrailingSlashes(p: string): (r: string)
    ensures |r| <= |p| && r == p[..|r|]
    ensures r == [] || r[|r| - 1] != '/'
    ensures forall i :: |r| <= i < |p| ==> p[i] == '/'
  {
    if p != [] && p[|p| - 1] == '/' then DropTrailingSlashes(p[..|p| - 1]) else p
  }

  /** The part of the path after its last slash. */
  function AfterLastSlash(p: string): (r: string)
    ensures |r| <= |p| && r == p[|p| - |r|..]
    ensures forall i :: 0 <= i < |r| ==> r[i] != '/'
    ensures |r| < |p| ==> p[|p| - |r| - 1] == '/'
  {
    if p == [] || p[|p| - 1] == '/' then []
    else AfterLastSlash(p[..|p| - 1]) + [p[|p| - 1]]
  }

  /** basename($p) on a POSIX system: trailing slashes are dropped, then
      everything up to the last slash. */
  function Basename(p: string): (r: string)
    ensures forall i :: 0 <= i < |r| ==> r[i] != '/'
  {
    AfterLastSlash(DropTrailingSlashes(p))
  }

  predicate NoSlash(s: string) {
    forall i :: 0 <= i < |s| ==> s[i] != '/'
  }

  lemma {:induction false} AfterLastSlashOfName(n: string)
    requires NoSlash(n)
    ensures AfterLastSlash(n) == n
  {
    if n != [] {
      AfterLastSlashOfName(n[..|n| - 1]);
      assert n[..|n| - 1] + [n[|n| - 1]] == n;
    }
  }

  /** A name without slashes is its own basename, so the basename of a posted file
      name is a single directory entry and taking it twice changes nothing. */
  lemma BasenameOfName(n: string)
    ensures NoSlash(n) ==> Basename(n) == n
    ensures Basename(Basename(n)) == Basename(n)
  {
    if NoSlash(n) {
      AfterLastSlashOfName(n);
    }
    AfterLastSlashOfName(Basename(n));
  }

  /** The `file` the actions work on: the basename of the posted one, or ''. */
  function PostedFile(f: Option<string>): (r: string)
    ensures NoSlash(r)
  {
    if f.Some? then Basename(f.value) else ""
  }

  // ------------------------------------------------------------------------
  // The name `create` gives a new site.

  predicate IsNameChar(c: char) {
    ('a' <= c <= 'z') || ('A' <= c <= 'Z') || ('0' <= c <= '9') || c == '.' || c == '_' || c == '-'
  }

  /** The name check of create: one or more ASCII letters, digits, dots,
      underscores or hyphens, and nothing else. */
  predicate AllNameChars(s: string) {
    |s| > 0 && forall i :: 0 <= i < |s| ==> IsNameChar(s[i])
  }

  datatype Naming = Named(name: string) | BadName(message: string)

  /** ".conf" is added unless the name already ends so. */
  function WithConfSuffix(name: string): (r: string)
    ensures EndsWith(r, ".conf")
  {
    if EndsWith(name, ".conf") then name else name + ".conf"
  }

  /** Lines 413-429: trim, refuse an empty name or one with other characters, add
      ".conf" unless it already ends so, and take the basename. */
  function SiteFileName(raw: string): Naming {
    var name := Trim(raw);
    if PhpEmpty(name) then BadName("Nombre vacío")
    else if !AllNameChars(name) then BadName("El nombre contiene caracteres no permitidos")
    else Named(Basename(WithConfSuffix(name)))
  }

  /** A trimmed name is accepted iff it is not empty("…") and only has name
      characters; the name accepted ends in ".conf", has only name characters, and
      is the trimmed name itself when that already ends in ".conf". */
  lemma SiteFileNameShape(raw: string)
    ensures SiteFileName(raw).Named? <==> !PhpEmpty(Trim(raw)) && AllNameChars(Trim(raw))
    ensures SiteFileName(raw).Named? ==>
              && EndsWith(SiteFileName(raw).name, ".conf")
              && AllNameChars(SiteFileName(raw).name)
              && SiteFileName(raw).name == WithConfSuffix(Trim(raw))
    ensures SiteFileName(raw).Named? && EndsWith(Trim(raw), ".conf") ==> SiteFileName(raw).name == Trim(raw)
  {
    var name := Trim(raw);
    if !PhpEmpty(name) && AllNameChars(name) {
      var w := WithConfSuffix(name);
      assert AllNameChars(w) by {
        if !EndsWith(name, ".conf") {
          assert forall i :: |name| <= i < |w| ==> w[i] == ".conf"[i - |name|];
        }
      }
      AfterLastSlashOfName(w);
    }
  }

  /** A name made only of name characters has nothing for trim() to cut. */
  lemma TrimKeepsName(s: string)
    requires AllNameChars(s)
    ensures Trim(s) == s
  {
    assert !IsTrimSpace(s[0]) && !IsTrimSpace(s[|s| - 1]);
  }

  /** Normalising a normalised name gives it back: a site created under a name
      can be created (and refused as existing) under the same name again. */
  lemma SiteFileNameIdempotent(raw: string)
    requires SiteFileName(raw).Named?
    ensures SiteFileName(SiteFileName(raw).name) == SiteFileName(raw)
  {
    SiteFileNameShape(raw);
    NormalNameKept(SiteFileName(raw).name);
  }

  lemma LongNotEmpty(n: string)
    requires |n| > 1
    ensures !PhpEmpty(n)
  {
    assert |"0"| == 1;
  }

  /** A name of name characters that ends in ".conf" is accepted as it is. */
  lemma NormalNameKept(n: string)
    requires EndsWith(n, ".conf") && AllNameChars(n)
    ensures SiteFileName(n) == Named(n)
  {
    LongNotEmpty(n);
    TrimKeepsName(n);
    assert NoSlash(n);
    BasenameOfName(n);
    assert WithConfSuffix(n) == n;
    assert Basename(WithConfSuffix(n)) == n;
  }

  /** The content `create` writes. */
  const Template := "server {\n    listen 80;\n    server_name ejemplo.com;\n    \n    root /var/www/html;\n    index index.html index.php;\n    \n    location / {\n        try_files $uri $uri/ =404;\n    }\n}"

  // ------------------------------------------------------------------------
  // The two directories.

  datatype Sites = Sites(available: map<string, string>, enabled: set<string>)

  /** Every enabled link points at an available file. */
  predicate Consistent(st: Sites) {
    st.enabled <= st.available.Keys
  }

  function Saved(st: Sites, name: string, content: string): Sites {
    st.(available := st.available[name := content])
  }

  function EnabledWith(st: Sites, name: string): Sites {
    st.(enabled := st.enabled + {name})
  }

  function DisabledWithout(st: Sites, name: string): Sites {
    st.(enabled := st.enabled - {name})
  }

  /** `mv` of the file, and the link moved along when there was one. */
  function Renamed(st: Sites, from: string, to: string): Sites
    requires from in st.available
  {
    Sites((st.available - {from})[to := st.available[from]],
          if from in st.enabled then st.enabled - {from} + {to} else st.enabled)
  }

  function Deleted(st: Sites, name: string): Sites {
    Sites(st.available - {name}, st.enabled - {name})
  }

  /** Every successful effect, under the preconditions its action checks, keeps
      the enabled links pointing at available files. */
  lemma EffectsKeepConsistent(st: Sites, name: string, to: string, content: string)
    requires Consistent(st)
    ensures Consistent(Saved(st, name, content))
    ensures name in st.available ==> Consistent(EnabledWith(st, name))
    ensures Consistent(DisabledWithout(st, name))
    ensures name in st.available && to !in st.available ==> Consistent(Renamed(st, name, to))
    ensures Consistent(Deleted(st, name))
  {
    if name in st.available && to !in st.available {
      var after := Renamed(st, name, to);
      forall n | n in after.enabled
        ensures n in after.available
      {
        if n != to {
          assert n in st.enabled && n != name;
        }
      }
    }
  }

  /** `disable` undoes `enable`. */
  lemma DisableUndoesEnable(st: Sites, name: string)
    requires name !in st.enabled
    ensures DisabledWithout(EnabledWith(st, name), name) == st
  {
    assert EnabledWith(st, name).enabled - {name} == st.enabled;
  }

  /** Renaming back restores both directories. */
  lemma RenameBack(st: Sites, from: string, to: string)
    requires Consistent(st) && from in st.available && to !in st.available && from != to
    ensures to in Renamed(st, from, to).available
    ensures Renamed(Renamed(st, from, to), to, from) == st
  {
    var mid := Renamed(st, from, to);
    var back := Renamed(mid, to, from);
    assert back.available == st.available;
    assert to !in st.enabled;
    assert back.enabled == st.enabled;
  }

  /** After `delete` the name is gone from both directories and every other name
      keeps its file and its link. */
  lemma DeleteForgetsOnlyName(st: Sites, name: string)
    ensures name !in Deleted(st, name).available && name !in Deleted(st, name).enabled
    ensures forall n :: n != name && n in st.available ==>
              n in Deleted(st, name).available && Deleted(st, name).available[n] == st.available[n]
    ensures forall n :: n != name ==> (n in Deleted(st, name).enabled <==> n in st.enabled)
  {
  }

  class SiteDirs {
    var available: map<string, string>
    var enabled: set<string>

    constructor (st: Sites)
      ensures State() == st
    {
      available := st.available;
      enabled := st.enabled;
    }

    function State(): Sites
      reads this
    {
      Sites(available, enabled)
    }

    /** `case 'read'` past the gate. */
    method ReadSite(file: string, io: ApiIo) returns (reply: ApiReply)
      ensures PhpEmpty(file) ==> reply == Failure(EmptyFileMessage)
      ensures !PhpEmpty(file) && file !in available ==> reply == Failure(NoSuchFileMessage)
      ensures !PhpEmpty(file) && file in available ==>
                reply == (if io.readOk then FileContent(available[file]) else Failure("No se pudo leer el archivo"))
    {
      if PhpEmpty(file) {
        return Failure(EmptyFileMessage);
      }
      if file !in available {
        return Failure(NoSuchFileMessage);
      }
      if !io.readOk {
        return Failure("No se pudo leer el archivo");
      }
      return FileContent(available[file]);
    }

    /** `case 'save'` past the gate: the content is copied in place before the
        syntax check, and stays there when the check or the reload fails. */
    method SaveSite(file: string, content: string, io: ApiIo) returns (reply: ApiReply)
      modifies this
      ensures PhpEmpty(file) || PhpEmpty(content) || !io.tmpOk || !io.cp.ok ==>
                State() == old(State())
                && reply == Failure(if PhpEmpty(file) then EmptyFileMessage
                                    else if PhpEmpty(content) then "Contenido vacío"
                                    else if !io.tmpOk then TmpFailedMessage
                                    else "Error al guardar: " + io.cp.output)
      ensures !(PhpEmpty(file) || PhpEmpty(content) || !io.tmpOk || !io.cp.ok) ==>
                State() == Saved(old(State()), file, content)
                && reply == (if !io.nginx.ok then Failure(io.nginx.output)
                             else if !io.reload.ok then Failure("NGINX recargado con advertencias: " + io.reload.output)
                             else Done("Configuración guardada y aplicada"))
    {
      if PhpEmpty(file) {
        return Failure(EmptyFileMessage);
      }
      if PhpEmpty(content) {
        return Failure("Contenido vacío");
      }
      if !io.tmpOk {
        return Failure(TmpFailedMessage);
      }
      if !io.cp.ok {
        return Failure("Error al guardar: " + io.cp.output);
      }
      available := available[file := content];
      if !io.nginx.ok {
        return Failure(io.nginx.output);
      }
      if !io.reload.ok {
        return Failure("NGINX recargado con advertencias: " + io.reload.output);
      }
      return Done("Configuración guardada y aplicada");
    }

    /** `case 'enable'` past the gate: the link is made, and removed again when
        the syntax check fails. */
    method EnableSite(file: string, io: ApiIo) returns (reply: ApiReply)
      modifies this
      ensures available == old(available)
      ensures PhpEmpty(file) ==> reply == Failure(EmptyFileMessage) && enabled == old(enabled)
      ensures !PhpEmpty(file) && file !in old(available) ==> reply == Failure(NoSuchFileMessage) && enabled == old(enabled)
      ensures !PhpEmpty(file) && file in old(available) && file in old(enabled) ==>
                reply == Failure("El sitio ya está habilitado") && enabled == old(enabled)
      ensures !PhpEmpty(file) && file in old(available) && file !in old(enabled) ==>
                if !io.ln.ok then
                  reply == Failure("Error al habilitar: " + io.ln.output) && enabled == old(enabled)
                else if !io.nginx.ok then
                  reply == Failure("Error de sintaxis: " + io.nginx.output) && enabled == old(enabled)
                else
                  reply == Done("Sitio '" + file + "' habilitado correctamente")
                  && State() == EnabledWith(old(State()), file)
    {
      if PhpEmpty(file) {
        return Failure(EmptyFileMessage);
      }
      if file !in available {
        return Failure(NoSuchFileMessage);
      }
      if file in enabled {
        return Failure("El sitio ya está habilitado");
      }
      if !io.ln.ok {
        return Failure("Error al habilitar: " + io.ln.output);
      }
      enabled := enabled + {file};
      if !io.nginx.ok {
        enabled := enabled - {file};
        return Failure("Error de sintaxis: " + io.nginx.output);
      }
      return Done("Sitio '" + file + "' habilitado correctamente");
    }

    /** `case 'disable'` past the gate. */
    method DisableSite(file: string, io: ApiIo) returns (reply: ApiReply)
      modifies this
      ensures available == old(available)
      ensures PhpEmpty(file) ==> reply == Failure(EmptyFileMessage) && enabled == old(enabled)
      ensures !PhpEmpty(file) && file !in old(enabled) ==> reply == Failure("El sitio no está habilitado") && enabled == old(enabled)
      ensures !PhpEmpty(file) && file in old(enabled) ==>
                if io.rm.ok then
                  reply == Done("Sitio '" + file + "' deshabilitado correctamente")
                  && State() == DisabledWithout(old(State()), file)
                else
                  reply == Failure("Error al deshabilitar: " + io.rm.output) && enabled == old(enabled)
    {
      if PhpEmpty(file) {
        return Failure(EmptyFileMessage);
      }
      if file !in enabled {
        return Failure("El sitio no está habilitado");
      }
      if !io.rm.ok {
        return Failure("Error al deshabilitar: " + io.rm.output);
      }
      enabled := enabled - {file};
      return Done("Sitio '" + file + "' deshabilitado correctamente");
    }

    /** `case 'rename'` past the gate. */
    method RenameSite(file: string, newName: string, io: ApiIo) returns (reply: ApiReply)
      modifies this
      ensures var refusal :=
                if PhpEmpty(file) || PhpEmpty(newName) then Some("Nombres vacíos")
                else if file == newName then Some("El nombre es el mismo")
                else if file !in old(available) then Some(NoSuchFileMessage)
                else if newName in old(available) then Some("Ya existe un archivo con ese nombre")
                else if !io.mv.ok then Some("Error al renombrar: " + io.mv.output)
                else None;
              if refusal.Some? then
                reply == Failure(refusal.value) && State() == old(State())
              else
                && file in old(available)
                && reply == Done("Renombrado de '" + file + "' a '" + newName + "'")
                && State() == Renamed(old(State()), file, newName)
    {
      if PhpEmpty(file) || PhpEmpty(newName) {
        return Failure("Nombres vacíos");
      }
      if file == newName {
        return Failure("El nombre es el mismo");
      }
      if file !in available {
        return Failure(NoSuchFileMessage);
      }
      if newName in available {
        return Failure("Ya existe un archivo con ese nombre");
      }
      if !io.mv.ok {
        return Failure("Error al renombrar: " + io.mv.output);
      }
      available := (available - {file})[newName := available[file]];
      if file in enabled {
        enabled := enabled - {file};
        enabled := enabled + {newName};
      }
      return Done("Renombrado de '" + file + "' a '" + newName + "'");
    }

    /** `case 'delete'` past the gate: the link goes first, so a failed removal
        of the file leaves the site disabled but present. */
    method DeleteSite(file: string, io: ApiIo) returns (reply: ApiReply)
      modifies this
      ensures PhpEmpty(file) || file !in old(available) ==>
                State() == old(State())
                && reply == Failure(if PhpEmpty(file) then EmptyFileMessage else NoSuchFileMessage)
      ensures !PhpEmpty(file) && file in old(available) ==>
                if io.rm.ok then
                  reply == Done("Sitio '" + file + "' eliminado correctamente")
                  && State() == Deleted(old(State()), file)
                else
                  reply == Failure("Error al eliminar: " + io.rm.output)
                  && State() == DisabledWithout(old(State()), file)
    {
      if PhpEmpty(file) {
        return Failure(EmptyFileMessage);
      }
      if file !in available {
        return Failure(NoSuchFileMessage);
      }
      enabled := enabled - {file};
      if !io.rm.ok {
        return Failure("Error al eliminar: " + io.rm.output);
      }
      available := available - {file};
      return Done("Sitio '" + file + "' eliminado correctamente");
    }

    /** `case 'create'`, which needs no permission: a new, disabled site with the
        template. */
    method CreateSite(rawName: string, io: ApiIo) returns (reply: ApiReply)
      modifies this
      ensures enabled == old(enabled)
      ensures match SiteFileName(rawName)
              case BadName(m) => reply == Failure(m) && available == old(available)
              case Named(name) =>
                if name in old(available) then
                  reply == Failure("Ya existe un sitio con ese nombre") && available == old(available)
                else if !io.tmpOk || !io.cp.ok then
                  reply == Failure(if !io.tmpOk then TmpFailedMessage else "Error al crear: " + io.cp.output)
                  && available == old(available)
                else
                  reply == Done("Sitio '" + name + "' creado correctamente")
                  && State() == Saved(old(State()), name, Template)
    {
      var naming := SiteFileName(rawName);
      if naming.BadName? {
        return Failure(naming.message);
      }
      var name := naming.name;
      if name in available {
        return Failure("Ya existe un sitio con ese nombre");
      }
      if !io.tmpOk {
        return Failure(TmpFailedMessage);
      }
      if !io.cp.ok {
        return Failure("Error al crear: " + io.cp.output);
      }
      available := available[name := Template];
      return Done("Sitio '" + name + "' creado correctamente");
    }
  }

  /** The actions behind the permission gate. */
  predicate Gated(action: string) {
    action == "read" || action == "save" || action == "enable" || action == "disable"
    || action == "rename" || action == "delete"
  }

  /** The try block of lines 110-473 for the session `sid`: an action is required
      and rate-limited before it is routed. */
  method Dispatch(req: ApiRequest, sid: string, s: Session, grants: PermissionStore, sites: SiteDirs,
                  now: int, io: ApiIo) returns (reply: ApiReply)
    modifies s, sites
    ensures var action := if req.action.Some? then req.action.value else "";
            PhpEmpty(action) ==>
              reply == Failure(NoActionMessage) && s.rateLimits == old(s.rateLimits) && sites.State() == old(sites.State())
    ensures var action := if req.action.Some? then req.action.value else "";
            var key := ApiRateKey(action);
            var d := RateStep(if key in old(s.rateLimits) then Some(old(s.rateLimits)[key]) else None,
                              ApiRateLimitMax, ApiRateLimitWindow, now);
            !PhpEmpty(action) ==>
              && s.rateLimits == old(s.rateLimits)[key := d.next]
              && (!d.allowed ==> reply == Error(429, TooManyRequests) && sites.State() == old(sites.State()))
    // nothing happens to the sites without a live grant, except `create`
    ensures var action := if req.action.Some? then req.action.value else "";
            Gated(action)
            && !(s.usuarioId.Some? && io.permissionsReadOk && grants.file.Records? && HasPermission(grants.file.grants, sid, now)) ==>
              sites.State() == old(sites.State())
              && (reply == Failure(NotVerifiedMessage) || reply == Error(429, TooManyRequests))
    ensures var action := if req.action.Some? then req.action.value else "";
            !PhpEmpty(action) && !Gated(action) && action != "create" ==>
              sites.State() == old(sites.State())
              && (reply == Failure("Acción no válida: " + HtmlEscape(action)) || reply == Error(429, TooManyRequests))
    ensures s.usuarioId == old(s.usuarioId) && s.csrfToken == old(s.csrfToken) && s.loginTime == old(s.loginTime)
  {
    var action := if req.action.Some? then req.action.value else "";
    if PhpEmpty(action) {
      return Failure(NoActionMessage);
    }
    var allowed := s.CheckRateLimit(ApiRateKey(action), ApiRateLimitMax, ApiRateLimitWindow, now);
    if !allowed {
      return Error(429, TooManyRequests);
    }
    reply := Route(action, req, sid, s.usuarioId, grants, sites, now, io);
  }

  /** The switch of lines 124-468: `create` runs without a permission, the six
      gated actions pass through the gate, anything else is refused with its
      html-escaped name. */
  method Route(action: string, req: ApiRequest, sid: string, userId: Option<int>,
               grants: PermissionStore, sites: SiteDirs, now: int, io: ApiIo) returns (reply: ApiReply)
    modifies sites
    ensures Gated(action) && !(userId.Some? && io.permissionsReadOk && grants.file.Records? && HasPermission(grants.file.grants, sid, now)) ==>
              reply == Failure(NotVerifiedMessage) && sites.State() == old(sites.State())
    ensures !Gated(action) && action != "create" ==>
              reply == Failure("Acción no válida: " + HtmlEscape(action)) && sites.State() == old(sites.State())
  {
    var file := PostedFile(req.file);
    if action == "create" {
      reply := sites.CreateSite(if req.name.Some? then req.name.value else "", io);
      return;
    }
    if !Gated(action) {
      return Failure("Acción no válida: " + HtmlEscape(action));
    }
    reply := GatedAction(action, file, req, sid, userId, grants, sites, now, io);
  }

  /** One of the six gated actions: requireVisudoPermission first, and the sites
      are only touched past it. */
  method GatedAction(action: string, file: string, req: ApiRequest, sid: string, userId: Option<int>,
                     grants: PermissionStore, sites: SiteDirs, now: int, io: ApiIo) returns (reply: ApiReply)
    requires Gated(action)
    modifies sites
    ensures !(userId.Some? && io.permissionsReadOk && grants.file.Records? && HasPermission(grants.file.grants, sid, now)) ==>
              reply == Failure(NotVerifiedMessage) && sites.State() == old(sites.State())
    ensures action == "read" ==> sites.State() == old(sites.State())
  {
    var gate := grants.RequireVisudoPermission(sid, userId, now, io.permissionsReadOk);
    if gate.Thrown? {
      return Failure(gate.message);
    }
    if action == "read" {
      reply := sites.ReadSite(file, io);
    } else if action == "save" {
      reply := sites.SaveSite(file, if req.content.Some? then req.content.value else "", io);
    } else if action == "enable" {
      reply := sites.EnableSite(file, io);
    } else if action == "disable" {
      reply := sites.DisableSite(file, io);
    } else if action == "rename" {
      reply := sites.RenameSite(file, PostedFile(req.newName), io);
    } else {
      reply := sites.DeleteSite(file, io);
    }
  }

  /** A whole request to api.php (lines 11-42 and 110-489): the admission checks,
      POST only, then the actions. */
  method HandleRequest(isPost: bool, requestUserAgent: string, req: ApiRequest, sid: string, s: Session,
                       grants: PermissionStore, sites: SiteDirs, now: int, io: ApiIo) returns (reply: ApiReply)
    modifies s, sites
    ensures old(s.usuarioId).None? ==>
              reply == Error(401, "Sesión no válida. Por favor, inicia sesión nuevamente.") && sites.State() == old(sites.State())
    ensures old(s.usuarioId).Some? && old(s.userAgent).Some? && old(s.userAgent).value != requestUserAgent ==>
              reply == Error(401, "Sesión inválida") && s.Empty() && sites.State() == old(sites.State())
    ensures old(s.usuarioId).Some? && !(old(s.userAgent).Some? && old(s.userAgent).value != requestUserAgent)
            && old(s.loginTime).Some? && now - old(s.loginTime).value > SessionTimeout ==>
              reply == Error(401, "Sesión expirada") && s.Empty() && sites.State() == old(sites.State())
    ensures !isPost && old(s.usuarioId).Some? ==> reply.Error? && sites.State() == old(sites.State())
    ensures var admitted := old(s.usuarioId).Some? && !(old(s.userAgent).Some? && old(s.userAgent).value != requestUserAgent)
                            && !(old(s.loginTime).Some? && now - old(s.loginTime).value > SessionTimeout);
            admitted && !isPost ==> reply == Error(405, "Método no permitido") && sites.State() == old(sites.State())
    // an admitted POST: the action is rate-limited, and nothing happens to the sites
    // without a live grant, except `create`
    ensures var admitted := old(s.usuarioId).Some? && !(old(s.userAgent).Some? && old(s.userAgent).value != requestUserAgent)
                            && !(old(s.loginTime).Some? && now - old(s.loginTime).value > SessionTimeout);
            var action := if req.action.Some? then req.action.value else "";
            var key := ApiRateKey(action);
            var d := RateStep(if key in old(s.rateLimits) then Some(old(s.rateLimits)[key]) else None,
                              ApiRateLimitMax, ApiRateLimitWindow, now);
            admitted && isPost ==>
              && (PhpEmpty(action) ==>
                    reply == Failure(NoActionMessage) && s.rateLimits == old(s.rateLimits) && sites.State() == old(sites.State()))
              && (!PhpEmpty(action) ==>
                    && s.rateLimits == old(s.rateLimits)[key := d.next]
                    && (!d.allowed ==> reply == Error(429, TooManyRequests) && sites.State() == old(sites.State())))
              && (Gated(action) && !(io.permissionsReadOk && grants.file.Records? && HasPermission(grants.file.grants, sid, now)) ==>
                    sites.State() == old(sites.State())
                    && (reply == Failure(NotVerifiedMessage) || reply == Error(429, TooManyRequests)))
              && (!PhpEmpty(action) && !Gated(action) && action != "create" ==>
                    sites.State() == old(sites.State())
                    && (reply == Failure("Acción no válida: " + HtmlEscape(action)) || reply == Error(429, TooManyRequests)))
  {
    var admission := s.Admit(now, requestUserAgent);
    if admission == NotLoggedIn {
      return Error(401, "Sesión no válida. Por favor, inicia sesión nuevamente.");
    }
    if admission == Hijacked {
      return Error(401, "Sesión inválida");
    }
    if admission == TimedOut {
      return Error(401, "Sesión expirada");
    }
    if !isPost {
      return Error(405, "Método no permitido");
    }
    reply := Dispatch(req, sid, s, grants, sites, now, io);
  }
}
