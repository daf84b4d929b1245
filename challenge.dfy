/**
 * The SQLite challenge table of www/panel/challenge.php: createChallenge purges
 * expired rows and inserts a fresh one-time code valid for 300 seconds, and
 * verifyChallenge consumes at most one matching row.
 *
 * The table is the sequence of its rows in insertion order. The database
 * handle, the clock, random_bytes() and date() are parameters: `dbOk` says
 * whether opening the database (and drawing the random bytes) succeeded,
 * `insertOk` whether the INSERT statement went through for reasons other than
 * the primary key, and `createdAt`/`verifiedAt` are the date() stamps.
 */
module ChallengeStore {
  import opened Wrappers
  import opened Text

  /** Seconds a code stays valid. */
  const CodeLifetime := 300

  /** One row of the `challenges` table. */
  datatype Challenge = Challenge(
    id: string,
    code: string,
    session: string,
    action: string,
    expires: int,
    used: bool,
    createdAt: string,
    verifiedAt: Option<string>)

  /** What createChallenge returns on success. */
  datatype Issued = Issued(id: string, code: string, session: string, action: string, expires: int)

  /** `id TEXT PRIMARY KEY`: no two rows share an id. */
  predicate UniqueIds(rows: seq<Challenge>) {
    forall i, j :: 0 <= i < j < |rows| ==> rows[i].id != rows[j].id
  }

  predicate HasId(rows: seq<Challenge>, id: string) {
    exists i :: 0 <= i < |rows| && rows[i].id == id
  }

  /** The code createChallenge issues: the first six hex digits of four random
      bytes, in upper case. */
  function HexCode(entropy: seq<byte>): string
    requires |entropy| == 4
  {
    Upper(BinToHex(entropy)[..6])
  }

  /** A row id: sixteen random bytes in hex. */
  function RowId(entropy: seq<byte>): string {
    BinToHex(entropy)
  }

  /** The code is six upper-case hex digits that spell out the first three random
      bytes, so every code carries 24 bits of the draw. */
  lemma HexCodeShape(entropy: seq<byte>)
    requires |entropy| == 4
    ensures |HexCode(entropy)| == 6
    ensures forall i :: 0 <= i < 6 ==> IsUpperHex(HexCode(entropy)[i])
    ensures HexToBin(HexCode(entropy)) == entropy[..3]
  {
    BinToHexPrefix(entropy, 3);
    HexRoundTrip(entropy[..3]);
  }

  /** The purge createChallenge runs first: rows that expired before `now` are
      deleted, the others stay in order. */
  function Unexpired(rows: seq<Challenge>, now: int): (r: seq<Challenge>)
    ensures |r| <= |rows|
    ensures forall c :: c in r <==> c in rows && c.expires >= now
    ensures UniqueIds(rows) ==> UniqueIds(r)
  {
    if rows == [] then []
    else
      var rest := Unexpired(rows[1..], now);
      assert UniqueIds(rows) ==> forall c :: c in rows[1..] ==> c.id != rows[0].id by {
        if UniqueIds(rows) {
          forall c | c in rows[1..]
            ensures c.id != rows[0].id
          {
            var j :| 0 <= j < |rows[1..]| && rows[1..][j] == c;
            assert rows[j + 1] == c;
          }
        }
      }
      if rows[0].expires < now then rest else [rows[0]] + rest
  }

  /** The purge keeps the order of the rows: purging a concatenation purges each
      part in place. With the membership clause of Unexpired this fixes the result. */
  lemma {:induction false} UnexpiredAppend(a: seq<Challenge>, b: seq<Challenge>, now: int)
    ensures Unexpired(a + b, now) == Unexpired(a, now) + Unexpired(b, now)
  {
    if a != [] {
      assert (a + b)[1..] == a[1..] + b;
      UnexpiredAppend(a[1..], b, now);
    } else {
      assert a + b == b;
    }
  }

  /** The WHERE clause of the SELECT in verifyChallenge. */
  predicate Matches(c: Challenge, code: string, sid: string, now: int) {
    c.code == code && c.session == sid && c.expires >= now && !c.used
  }

  /** The row `LIMIT 1` picks: the earliest matching one. */
  function FirstMatch(rows: seq<Challenge>, code: string, sid: string, now: int): (r: Option<nat>)
    ensures r.Some? ==> r.value < |rows| && Matches(rows[r.value], code, sid, now)
                        && forall j :: 0 <= j < r.value ==> !Matches(rows[j], code, sid, now)
    ensures r.None? ==> forall j :: 0 <= j < |rows| ==> !Matches(rows[j], code, sid, now)
  {
    if rows == [] then None
    else if Matches(rows[0], code, sid, now) then Some(0)
    else match FirstMatch(rows[1..], code, sid, now)
      case None => None
      case Some(k) => Some(k + 1)
  }

  /** The posted code as verifyChallenge looks it up: trimmed, then upper-cased. */
  function NormalizeCode(code: string): string {
    Upper(Trim(code))
  }

  /** The update verifyChallenge runs: every row with the given id is marked used
      and stamped with the verification time. */
  function MarkUsed(rows: seq<Challenge>, id: string, verifiedAt: string): (r: seq<Challenge>)
    ensures |r| == |rows|
  {
    seq(|rows|, i requires 0 <= i < |rows| =>
      if rows[i].id == id then rows[i].(used := true, verifiedAt := Some(verifiedAt)) else rows[i])
  }

  /** With unique ids the UPDATE touches exactly the chosen row. */
  lemma MarkUsedOnlyRow(rows: seq<Challenge>, k: nat, verifiedAt: string)
    requires UniqueIds(rows) && k < |rows|
    ensures MarkUsed(rows, rows[k].id, verifiedAt) == rows[k := rows[k].(used := true, verifiedAt := Some(verifiedAt))]
  {
  }

  /** A code that was just issued is already in normal form, so verifying it as
      returned looks it up unchanged. */
  lemma IssuedCodeIsNormal(entropy: seq<byte>)
    requires |entropy| == 4
    ensures NormalizeCode(HexCode(entropy)) == HexCode(entropy)
  {
    var c := HexCode(entropy);
    HexCodeShape(entropy);
    assert TrimStart(c, 0) == 0 by {
      assert !IsTrimSpace(c[0]);
    }
    assert TrimEnd(c, 0, |c|) == |c| by {
      assert !IsTrimSpace(c[5]);
    }
  }

  /** Single use: once the first matching row is consumed it never matches again,
      so a repeated verification can only succeed on another row. */
  lemma ConsumedRowNeverMatches(rows: seq<Challenge>, code: string, sid: string, now: int, verifiedAt: string, code2: string, sid2: string, later: int)
    requires UniqueIds(rows)
    requires FirstMatch(rows, code, sid, now).Some?
    ensures var k := FirstMatch(rows, code, sid, now).value;
            var after := MarkUsed(rows, rows[k].id, verifiedAt);
            && UniqueIds(after)
            && after[k].used
            && (FirstMatch(after, code2, sid2, later).Some? ==> FirstMatch(after, code2, sid2, later).value != k)
  {
    var k := FirstMatch(rows, code, sid, now).value;
    MarkUsedOnlyRow(rows, k, verifiedAt);
  }

  /** The row a fresh createChallenge inserts. */
  function NewRow(id: string, code: string, sid: string, action: string, now: int, createdAt: string): Challenge {
    Challenge(id, code, sid, action, now + CodeLifetime, false, createdAt, None)
  }

  /** A code issued at `now` verifies for its session at any time up to its expiry:
      the lookup finds the new row, or an older matching row before it. */
  lemma IssuedCodeVerifies(rows: seq<Challenge>, id: string, code: string, sid: string, action: string, now: int, createdAt: string, t: int)
    requires t <= now + CodeLifetime
    ensures FirstMatch(Unexpired(rows, now) + [NewRow(id, code, sid, action, now, createdAt)], code, sid, t).Some?
  {
    var after := Unexpired(rows, now) + [NewRow(id, code, sid, action, now, createdAt)];
    assert Matches(after[|after| - 1], code, sid, t);
  }

  /** The SQLite table. */
  class ChallengeTable {
    var rows: seq<Challenge>

    ghost predicate Valid()
      reads this
    {
      UniqueIds(rows)
    }

    /** `CREATE TABLE IF NOT EXISTS challenges`: a new database is empty. */
    constructor ()
      ensures Valid() && rows == []
    {
      rows := [];
    }

    /** createChallenge($sessionId, $action) at time `now`. The purge is its own
        statement, so it stays done when the INSERT fails afterwards (for a
        colliding id or any other reason); the call then returns false (None). */
    method CreateChallenge(sid: string, action: string, now: int, codeEntropy: seq<byte>, idEntropy: seq<byte>,
                           createdAt: string, dbOk: bool, insertOk: bool) returns (r: Option<Issued>)
      requires Valid()
      requires |codeEntropy| == 4 && |idEntropy| == 16
      modifies this
      ensures Valid()
      ensures !dbOk ==> r.None? && rows == old(rows)
      ensures dbOk ==>
        var kept := Unexpired(old(rows), now);
        var id := RowId(idEntropy);
        if insertOk && !HasId(kept, id) then
          && r == Some(Issued(id, HexCode(codeEntropy), sid, action, now + CodeLifetime))
          && rows == kept + [NewRow(id, HexCode(codeEntropy), sid, action, now, createdAt)]
        else
          r.None? && rows == kept
    {
      if !dbOk {
        return None;
      }
      var code := HexCode(codeEntropy);
      var id := RowId(idEntropy);
      var expires := now + CodeLifetime;
      rows := Unexpired(rows, now);
      if !insertOk || HasId(rows, id) {
        return None;
      }
      rows := rows + [NewRow(id, code, sid, action, now, createdAt)];
      r := Some(Issued(id, code, sid, action, expires));
    }

    /** verifyChallenge($code, $sessionId) at time `now`: the earliest unused,
        unexpired row with the normalised code and the same session is marked used
        and stamped; nothing changes when there is none. */
    method VerifyChallenge(code: string, sid: string, now: int, verifiedAt: string, dbOk: bool) returns (ok: bool)
      requires Valid()
      modifies this
      ensures Valid()
      ensures !dbOk ==> !ok && rows == old(rows)
      ensures dbOk ==>
        match FirstMatch(old(rows), NormalizeCode(code), sid, now)
        case None => !ok && rows == old(rows)
        case Some(k) =>
          ok && rows == old(rows)[k := old(rows)[k].(used := true, verifiedAt := Some(verifiedAt))]
    {
      if !dbOk {
        return false;
      }
      var normal := NormalizeCode(code);
      var found := FirstMatch(rows, normal, sid, now);
      if found.None? {
        return false;
      }
      MarkUsedOnlyRow(rows, found.value, verifiedAt);
      rows := MarkUsed(rows, rows[found.value].id, verifiedAt);
      ok := true;
    }
  }
}
