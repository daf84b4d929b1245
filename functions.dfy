/**
 * The session-only helpers of www/html/enginex/functions.php: the CSRF token
 * (generarTokenCSRF, verificarTokenCSRF) and the relative-time text of
 * formatearFechaAmigable. The 32 random bytes are a parameter; the caller
 * supplies the age of the date in seconds and the date as day/month/year text.
 */
module PanelHelpers {
  import opened Wrappers
  import opened Text
  import opened Sessions

  /** The token generarTokenCSRF leaves in the session: the stored one, or the
      hex text of the fresh random bytes when there is none. */
  function TokenAfterGenerate(current: Option<string>, entropy: seq<byte>): string {
    if current.Some? then current.value else BinToHex(entropy)
  }

  /** verificarTokenCSRF($token) against the stored token. */
  predicate TokenMatches(stored: Option<string>, token: string) {
    stored.Some? && token == stored.value
  }

  /** A fresh token is 64 lower-case hex digits; generating again keeps it, so the
      token a form was rendered with stays valid. */
  lemma GenerateIdempotent(current: Option<string>, entropy: seq<byte>, entropy2: seq<byte>)
    requires |entropy| == 32
    ensures current.None? ==> |TokenAfterGenerate(current, entropy)| == 64
    ensures TokenAfterGenerate(Some(TokenAfterGenerate(current, entropy)), entropy2) == TokenAfterGenerate(current, entropy)
  {
  }

  /** generarTokenCSRF(): creates the token once and returns the stored one. */
  method GenerateCsrfToken(s: Session, entropy: seq<byte>) returns (token: string)
    requires |entropy| == 32
    modifies s
    ensures token == TokenAfterGenerate(old(s.csrfToken), entropy) && s.csrfToken == Some(token)
    ensures s.usuarioId == old(s.usuarioId) && s.usuarioNombre == old(s.usuarioNombre)
            && s.loginTime == old(s.loginTime) && s.userAgent == old(s.userAgent)
            && s.loginAttempts == old(s.loginAttempts) && s.lastAttemptTime == old(s.lastAttemptTime)
            && s.rateLimits == old(s.rateLimits)
  {
    if s.csrfToken.None? {
      s.csrfToken := Some(BinToHex(entropy));
    }
    token := s.csrfToken.value;
  }

  /** verificarTokenCSRF($token). */
  method VerifyCsrfToken(s: Session, token: string) returns (ok: bool)
    ensures ok == TokenMatches(s.csrfToken, token)
  {
    if s.csrfToken.None? || token != s.csrfToken.value {
      return false;
    }
    return true;
  }

  // -------------------------------------------------- formatearFechaAmigable

  const Minute := 60
  const Hour := 3600
  const Day := 86400
  const Week := 604800

  /** "Hace n <unit>", with the plural "s" exactly when n > 1. */
  function Ago(n: nat, unit: string): string {
    "Hace " + NatToString(n) + " " + unit + (if n > 1 then "s" else "")
  }

  /** formatearFechaAmigable for a difference of `diff` seconds. PHP's floor() of a
      non-negative difference is Dafny's `/`. */
  function FriendlyAge(diff: int, dateText: string): string {
    if diff < Minute then "Hace unos segundos"
    else if diff < Hour then Ago(diff / Minute, "minuto")
    else if diff < Day then Ago(diff / Hour, "hora")
    else if diff < Week then Ago(diff / Day, "día")
    else dateText
  }

  /** The bucket a difference falls in: `n` whole units of `size` seconds have
      passed, at least one and fewer than the next unit holds. */
  predicate InBucket(diff: int, n: nat, size: nat, next: nat) {
    size > 0 && 1 <= n && n * size <= diff < (n + 1) * size && diff < next
  }

  /** Every difference below a week gets exactly one reading: seconds below a
      minute (negative ones too), else the count of whole minutes, hours or days,
      and a week or more falls back to the date. */
  lemma FriendlyAgeBuckets(diff: int, dateText: string)
    ensures diff < Minute ==> FriendlyAge(diff, dateText) == "Hace unos segundos"
    ensures Minute <= diff < Hour ==>
              exists n: nat :: InBucket(diff, n, Minute, Hour) && FriendlyAge(diff, dateText) == Ago(n, "minuto")
    ensures Hour <= diff < Day ==>
              exists n: nat :: InBucket(diff, n, Hour, Day) && FriendlyAge(diff, dateText) == Ago(n, "hora")
    ensures Day <= diff < Week ==>
              exists n: nat :: InBucket(diff, n, Day, Week) && FriendlyAge(diff, dateText) == Ago(n, "día")
    ensures diff >= Week ==> FriendlyAge(diff, dateText) == dateText
  {
    if Minute <= diff < Hour {
      BucketOf(diff, Minute, Hour);
    } else if Hour <= diff < Day {
      BucketOf(diff, Hour, Day);
    } else if Day <= diff < Week {
      BucketOf(diff, Day, Week);
    }
  }

  lemma BucketOf(diff: int, size: nat, next: nat)
    requires 0 < size <= diff < next
    ensures InBucket(diff, diff / size, size, next)
  {
  }

  /** The count in a reading is exactly the number of whole units: a bucket has one
      count only, and the plural shows iff that count exceeds one. */
  lemma BucketUnique(diff: int, n: nat, m: nat, size: nat, next: nat)
    requires InBucket(diff, n, size, next) && InBucket(diff, m, size, next)
    ensures n == m
  {
    ScaledLess(n, m + 1, size);
    ScaledLess(m, n + 1, size);
  }

  lemma ScaledLess(a: int, b: int, size: int)
    requires size > 0 && a * size < b * size
    ensures a < b
  {
    assert (b - a) * size == b * size - a * size;
  }
}
