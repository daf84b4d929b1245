/**
 * The text edits applyVisudo and its rollback make to /etc/sudoers.d/nginx-dash
 * (www/panel/visudo.php:40-43 and 82-85), as the POSIX sed utility performs them.
 * Activation addresses the range that runs from a `BlockStart` line through the
 * next `BlockEnd` line; on each line of it, a leading `CommentedUser` becomes
 * `ActiveUser`, and then the first `TagDisabled` becomes `TagActive`. Rollback
 * addresses the same range with both substitutions reversed. A file is its sequence
 * of lines. Range addressing selects every line from one that matches the start
 * pattern through the next later line that matches the end pattern (to the end
 * of the file when none does); the end pattern is only looked for from the line
 * after the start line on. The addresses are matched against the input line, so
 * the edit itself never decides which lines are selected.
 */
module SudoersEdit {
  import opened Wrappers
  import opened Text

  const BlockStart := "# ===== BLOQUE TEMPORAL ====="
  const BlockEnd := "# ===== FIN BLOQUE TEMPORAL ====="
  const CommentedUser := "# www-data"
  const ActiveUser := "www-data"
  const TagDisabled := "# TEMPORALES - DESHABILITADOS"
  const TagActive := "# TEMPORALES - ACTIVOS"

  /** Which of the two sed scripts runs: activation or rollback. */
  datatype Edit = Activate | Deactivate

  /** The two substitutions, applied in order to one selected line. */
  function EditLine(e: Edit, line: string): string {
    match e
    case Activate => ReplaceFirst(ReplacePrefix(line, CommentedUser, ActiveUser), TagDisabled, TagActive)
    case Deactivate => ReplaceFirst(ReplacePrefix(line, ActiveUser, CommentedUser), TagActive, TagDisabled)
  }

  /** The range address: which lines the block applies to, when a range is already
      open (`open`) before the first line. */
  function InBlock(lines: seq<string>, open: bool): (sel: seq<bool>)
    ensures |sel| == |lines|
  {
    if lines == [] then []
    else if open then [true] + InBlock(lines[1..], !Contains(lines[0], BlockEnd))
    else if Contains(lines[0], BlockStart) then [true] + InBlock(lines[1..], true)
    else [false] + InBlock(lines[1..], false)
  }

  /** The edited first line in front of the edited rest is the edited file. */
  lemma SedBlockStep(lines: seq<string>, open: bool, e: Edit, rest: seq<string>)
    requires lines != []
    requires var selected := open || Contains(lines[0], BlockStart);
             var stillOpen := if open then !Contains(lines[0], BlockEnd) else selected;
             var sel := InBlock(lines[1..], stillOpen);
             && |rest| == |lines| - 1
             && forall i :: 0 <= i < |rest| ==> rest[i] == (if sel[i] then EditLine(e, lines[i + 1]) else lines[i + 1])
    ensures var selected := open || Contains(lines[0], BlockStart);
            var r := [if selected then EditLine(e, lines[0]) else lines[0]] + rest;
            forall i :: 0 <= i < |lines| ==> r[i] == (if InBlock(lines, open)[i] then EditLine(e, lines[i]) else lines[i])
  {
    var selected := open || Contains(lines[0], BlockStart);
    var stillOpen := if open then !Contains(lines[0], BlockEnd) else selected;
    var sel := InBlock(lines[1..], stillOpen);
    var all := InBlock(lines, open);
    assert all == [selected] + sel;
    var r := [if selected then EditLine(e, lines[0]) else lines[0]] + rest;
    forall i | 1 <= i < |lines|
      ensures r[i] == (if all[i] then EditLine(e, lines[i]) else lines[i])
    {
      assert r[i] == rest[i - 1] && all[i] == sel[i - 1];
    }
  }

  /** sed's line-by-line run of the script: each line is read, its address decides
      whether the block runs on it, and the range state moves on. */
  function SedBlock(lines: seq<string>, open: bool, e: Edit): (r: seq<string>)
    ensures |r| == |lines|
    ensures forall i :: 0 <= i < |lines| ==>
              r[i] == (if InBlock(lines, open)[i] then EditLine(e, lines[i]) else lines[i])
  {
    if lines == [] then []
    else
      var selected := open || Contains(lines[0], BlockStart);
      var stillOpen := if open then !Contains(lines[0], BlockEnd) else selected;
      var rest := SedBlock(lines[1..], stillOpen, e);
      SedBlockStep(lines, open, e, rest);
      [if selected then EditLine(e, lines[0]) else lines[0]] + rest
  }

  /** The activation edit on a whole file. */
  function Activated(lines: seq<string>): seq<string> {
    SedBlock(lines, false, Activate)
  }

  /** The rollback edit on a whole file. */
  function RolledBack(lines: seq<string>): seq<string> {
    SedBlock(lines, false, Deactivate)
  }

  /** Every selected line is in its disabled form: no rule already uncommented at the
      start of the line and no "ACTIVOS" tag. */
  predicate BlockDisabled(lines: seq<string>) {
    var sel := InBlock(lines, false);
    forall i :: 0 <= i < |lines| && sel[i] ==> !StartsWith(lines[i], ActiveUser) && !Contains(lines[i], TagActive)
  }

  /** Every selected line is in its enabled form: no commented rule at the start of
      the line and no "DESHABILITADOS" tag. */
  predicate BlockEnabled(lines: seq<string>) {
    var sel := InBlock(lines, false);
    forall i :: 0 <= i < |lines| && sel[i] ==> !StartsWith(lines[i], CommentedUser) && !Contains(lines[i], TagDisabled)
  }

  // ------------------------------------------------------------------------
  // Substring facts used by the proofs.

  /** `m` cannot overlap an occurrence of `r` without being wholly on one side of
      it: `m` begins with its only '#', `r` has '#' at most at its start, the first
      character of `r` does not occur later in `m`, and when both begin with '#'
      their third characters differ. */
  predicate Separated(m: string, r: string) {
    && |m| > 2 && m[0] == '#' && |r| > 0
    && (forall i :: 1 <= i < |m| ==> m[i] != '#' && m[i] != r[0])
    && (forall j :: 1 <= j < |r| ==> r[j] != '#')
    && (r[0] == '#' ==> |r| > 2 && r[2] != m[2])
  }

  /** A marker `m` separated from `r` occurs in `a + r + b` exactly when it occurs
      in `a` or in `b`: replacing `r` by another separated string neither creates
      nor destroys a marker. */
  lemma ContainsAround(a: string, r: string, b: string, m: string)
    requires Separated(m, r)
    ensures Contains(a + r + b, m) <==> Contains(a, m) || Contains(b, m)
  {
    var s := a + r + b;
    if Contains(s, m) {
      var p :| 0 <= p <= |s| - |m| && OccursAt(s, m, p);
      OccurrenceInPart(a, r, b, m, p);
    }
    if Contains(a, m) {
      var p :| 0 <= p <= |a| - |m| && OccursAt(a, m, p);
      PrefixOccurrence(a, r + b, m, p);
      assert a + (r + b) == s;
    }
    if Contains(b, m) {
      var q :| 0 <= q <= |b| - |m| && OccursAt(b, m, q);
      SuffixOccurrence(a, r, b, m, q);
    }
  }

  /** An occurrence in `a + r + b` lies wholly in `a` or wholly in `b`. */
  lemma OccurrenceInPart(a: string, r: string, b: string, m: string, p: nat)
    requires Separated(m, r) && OccursAt(a + r + b, m, p)
    ensures OccursAt(a, m, p) || OccursAt(b, m, p - |a| - |r|)
  {
    var s := a + r + b;
    NoStraddle(a, r, b, m);
    if p + |m| <= |a| {
      assert a[p..p + |m|] == s[p..p + |m|];
    } else {
      assert p >= |a| + |r|;
      var q := p - |a| - |r|;
      assert b[q..q + |m|] == s[p..p + |m|];
    }
  }

  lemma PrefixOccurrence(a: string, x: string, m: string, p: nat)
    requires OccursAt(a, m, p)
    ensures OccursAt(a + x, m, p)
  {
    assert (a + x)[p..p + |m|] == a[p..p + |m|];
  }

  /** No occurrence of `m` in `a + r + b` overlaps `r`. */
  lemma NoStraddle(a: string, r: string, b: string, m: string)
    requires Separated(m, r)
    ensures forall p :: 0 <= p < |a| + |r| && p + |m| > |a| ==> !OccursAt(a + r + b, m, p)
  {
    var s := a + r + b;
    forall p | 0 <= p < |a| + |r| && p + |m| > |a|
      ensures !OccursAt(s, m, p)
    {
      if p + |m| <= |s| {
        var w := s[p..p + |m|];
        if p < |a| {
          // the character at |a| is r[0], which m does not hold at that offset
          assert w[|a| - p] == s[|a|] == r[0] != m[|a| - p];
        } else if p == |a| && r[0] == '#' {
          // both begin with '#', and their third characters differ
          assert w[2] == s[p + 2] == r[2] != m[2];
        } else {
          // m begins with '#', which r holds at most at its start
          assert w[0] == s[p] == r[p - |a|] != '#';
        }
      }
    }
  }

  lemma SuffixOccurrence(a: string, r: string, b: string, m: string, q: nat)
    requires OccursAt(b, m, q)
    ensures OccursAt(a + r + b, m, q + |a| + |r|)
  {
    var s := a + r + b;
    var p := q + |a| + |r|;
    assert s[|a| + |r|..] == b;
    assert s[p..p + |m|] == b[q..q + |m|];
  }

  /** Replacing the first `d` by `a` keeps every marker separated from both. */
  lemma ReplaceFirstKeepsMarker(s: string, d: string, a: string, m: string)
    requires Separated(m, d) && Separated(m, a)
    ensures Contains(ReplaceFirst(s, d, a), m) == Contains(s, m)
  {
    match FindFrom(s, d, 0)
    case None =>
    case Some(i) =>
      assert s == s[..i] + d + s[i + |d|..];
      ContainsAround(s[..i], d, s[i + |d|..], m);
      ContainsAround(s[..i], a, s[i + |d|..], m);
  }

  /** Replacing a leading `p` by `q` keeps every marker separated from both. */
  lemma ReplacePrefixKeepsMarker(s: string, p: string, q: string, m: string)
    requires Separated(m, p) && Separated(m, q)
    ensures Contains(ReplacePrefix(s, p, q), m) == Contains(s, m)
  {
    if StartsWith(s, p) {
      assert s == "" + p + s[|p|..];
      ContainsAround("", p, s[|p|..], m);
      assert ReplacePrefix(s, p, q) == "" + q + s[|p|..];
      ContainsAround("", q, s[|p|..], m);
    }
  }

  lemma MarkersSeparated()
    ensures forall m :: m in {BlockStart, BlockEnd} ==>
      Separated(m, CommentedUser) && Separated(m, ActiveUser)
      && Separated(m, TagDisabled) && Separated(m, TagActive)
  {
    MarkerSeparatedFromUsers(BlockStart);
    MarkerSeparatedFromUsers(BlockEnd);
    MarkerSeparatedFromTags(BlockStart);
    MarkerSeparatedFromTags(BlockEnd);
  }

  /** A string that begins with "# =====" and holds no other '#' and no 'w'. */
  predicate MarkerShaped(m: string) {
    && |m| > 2 && m[0] == '#' && m[2] == '='
    && forall i :: 1 <= i < |m| ==> m[i] != '#' && m[i] != 'w'
  }

  lemma MarkerSeparatedFromUsers(m: string)
    requires MarkerShaped(m)
    ensures Separated(m, CommentedUser) && Separated(m, ActiveUser)
  {
  }

  lemma MarkerSeparatedFromTags(m: string)
    requires MarkerShaped(m)
    ensures Separated(m, TagDisabled) && Separated(m, TagActive)
  {
  }

  /** Neither substitution adds or removes a block marker on the line it edits. */
  lemma EditLineKeepsMarkers(e: Edit, line: string)
    ensures Contains(EditLine(e, line), BlockStart) == Contains(line, BlockStart)
    ensures Contains(EditLine(e, line), BlockEnd) == Contains(line, BlockEnd)
  {
    MarkersSeparated();
    var m := BlockStart;
    var n := BlockEnd;
    match e
    case Activate =>
      var l1 := ReplacePrefix(line, CommentedUser, ActiveUser);
      ReplacePrefixKeepsMarker(line, CommentedUser, ActiveUser, m);
      ReplacePrefixKeepsMarker(line, CommentedUser, ActiveUser, n);
      ReplaceFirstKeepsMarker(l1, TagDisabled, TagActive, m);
      ReplaceFirstKeepsMarker(l1, TagDisabled, TagActive, n);
    case Deactivate =>
      var l1 := ReplacePrefix(line, ActiveUser, CommentedUser);
      ReplacePrefixKeepsMarker(line, ActiveUser, CommentedUser, m);
      ReplacePrefixKeepsMarker(line, ActiveUser, CommentedUser, n);
      ReplaceFirstKeepsMarker(l1, TagActive, TagDisabled, m);
      ReplaceFirstKeepsMarker(l1, TagActive, TagDisabled, n);
  }

  /** Either sed script leaves the block boundaries where they were, so a second
      run addresses exactly the lines the first one did. */
  lemma {:induction false} BlockBoundariesKept(lines: seq<string>, open: bool, e: Edit)
    ensures InBlock(SedBlock(lines, open, e), open) == InBlock(lines, open)
    decreases |lines|
  {
    if lines != [] {
      var out := SedBlock(lines, open, e);
      var selected := open || Contains(lines[0], BlockStart);
      var stillOpen := if open then !Contains(lines[0], BlockEnd) else selected;
      EditLineKeepsMarkers(e, lines[0]);
      assert Contains(out[0], BlockStart) == Contains(lines[0], BlockStart);
      assert Contains(out[0], BlockEnd) == Contains(lines[0], BlockEnd);
      assert out[1..] == SedBlock(lines[1..], stillOpen, e);
      BlockBoundariesKept(lines[1..], stillOpen, e);
    }
  }

  /** A file without a start marker is left exactly as it was. */
  lemma {:induction false} NoBlockNoChange(lines: seq<string>, e: Edit)
    requires forall i :: 0 <= i < |lines| ==> !Contains(lines[i], BlockStart)
    ensures SedBlock(lines, false, e) == lines
    decreases |lines|
  {
    if lines != [] {
      NoBlockNoChange(lines[1..], e);
    }
  }

  // ------------------------------------------------------------------------
  // The line-level round trip.

  lemma FindFromFirst(s: string, p: string, i: nat)
    requires OccursAt(s, p, i) && forall j :: 0 <= j < i ==> !OccursAt(s, p, j)
    ensures FindFrom(s, p, 0) == Some(i)
  {
  }

  lemma FindFromAbsent(s: string, p: string)
    requires !Contains(s, p)
    ensures FindFrom(s, p, 0) == None
  {
    forall i
      ensures !OccursAt(s, p, i)
    {
      if 0 <= i <= |s| - |p| {
      }
    }
  }

  /** Undoing a replacement: when `a` did not occur before, replacing the first `d`
      by `a` and then the first `a` by `d` restores the line, because an `a` that
      begins with its only '#' cannot start earlier than the one just written. */
  lemma ReplaceFirstUndone(s: string, d: string, a: string)
    requires !Contains(s, a)
    requires |a| > 0 && a[0] == '#' && forall j :: 1 <= j < |a| ==> a[j] != '#'
    ensures ReplaceFirst(ReplaceFirst(s, d, a), a, d) == s
  {
    match FindFrom(s, d, 0)
    case None =>
      FindFromAbsent(s, a);
    case Some(i) =>
      var t := s[..i] + a + s[i + |d|..];
      WrittenIsFirst(s, t, d, a, i);
      FindFromFirst(t, a, i);
      Reassembled(s, t, d, a, i);
  }

  /** The `a` written at `i` is the first one in `t`. */
  lemma WrittenIsFirst(s: string, t: string, d: string, a: string, i: nat)
    requires !Contains(s, a) && OccursAt(s, d, i)
    requires |a| > 0 && a[0] == '#' && forall j :: 1 <= j < |a| ==> a[j] != '#'
    requires t == s[..i] + a + s[i + |d|..]
    ensures OccursAt(t, a, i) && forall j :: 0 <= j < i ==> !OccursAt(t, a, j)
  {
    assert t[i..i + |a|] == a;
    forall j | 0 <= j < i
      ensures !OccursAt(t, a, j)
    {
      if j + |a| <= i {
        EarlierCopyInPrefix(s, t, a, i, j);
      } else if j + |a| <= |t| {
        // it would overlap the written `a`, whose '#' it holds nowhere but at 0
        assert t[j..j + |a|][i - j] == t[i] == a[0] != a[i - j];
      }
    }
  }

  /** An `a` that ends before `i` lies in the part `t` shares with `s`. */
  lemma EarlierCopyInPrefix(s: string, t: string, a: string, i: nat, j: nat)
    requires !Contains(s, a)
    requires i <= |s| && i <= |t| && t[..i] == s[..i] && j + |a| <= i
    ensures !OccursAt(t, a, j)
  {
    assert s[j..j + |a|] == s[..i][j..j + |a|] == t[..i][j..j + |a|] == t[j..j + |a|];
    assert !OccursAt(s, a, j);
  }

  /** Writing `d` back over the `a` at `i` gives `s` again. */
  lemma Reassembled(s: string, t: string, d: string, a: string, i: nat)
    requires OccursAt(s, d, i) && t == s[..i] + a + s[i + |d|..]
    ensures t[..i] + d + t[i + |a|..] == s
  {
    assert t[..i] == s[..i];
    assert t[i + |a|..] == s[i + |d|..];
    assert s[i..i + |d|] == d;
  }

  lemma OccursShifted(q: string, x: string, d: string, k: nat)
    ensures OccursAt(q + x, d, k + |q|) == OccursAt(x, d, k)
  {
    if k + |d| <= |x| {
      assert (q + x)[k + |q|..k + |q| + |d|] == x[k..k + |d|];
    }
  }

  lemma NoneFoundPastPrefix(q: string, x: string, d: string)
    requires forall j :: 0 <= j < |q| ==> !OccursAt(q + x, d, j)
    requires FindFrom(x, d, 0) == None
    ensures FindFrom(q + x, d, 0) == None
  {
    forall j: int | |q| <= j
      ensures !OccursAt(q + x, d, j)
    {
      OccursShifted(q, x, d, j - |q|);
    }
  }

  lemma FoundPastPrefix(q: string, x: string, d: string, k: nat)
    requires forall j :: 0 <= j < |q| ==> !OccursAt(q + x, d, j)
    requires FindFrom(x, d, 0) == Some(k)
    ensures FindFrom(q + x, d, 0) == Some(k + |q|)
  {
    forall j: int | |q| <= j < k + |q|
      ensures !OccursAt(q + x, d, j)
    {
      OccursShifted(q, x, d, j - |q|);
    }
    OccursShifted(q, x, d, k);
    FindFromFirst(q + x, d, k + |q|);
  }

  /** What the remainder contains, the whole line contains. */
  lemma ContainedAfter(q: string, x: string, m: string)
    ensures Contains(x, m) ==> Contains(q + x, m)
  {
    if Contains(x, m) {
      var k :| 0 <= k <= |x| - |m| && OccursAt(x, m, k);
      OccursShifted(q, x, m, k);
    }
  }

  /** A replacement that cannot start inside a prefix `q` happens in the remainder. */
  lemma ReplaceFirstPastPrefix(q: string, x: string, d: string, a: string)
    requires forall j :: 0 <= j < |q| ==> !OccursAt(q + x, d, j)
    ensures ReplaceFirst(q + x, d, a) == q + ReplaceFirst(x, d, a)
  {
    match FindFrom(x, d, 0)
    case None =>
      NoneFoundPastPrefix(q, x, d);
    case Some(k) =>
      FoundPastPrefix(q, x, d, k);
      ReplaceFirstAt(x, d, a, k);
      ReplaceFirstAt(q + x, d, a, k + |q|);
      SpliceAfterPrefix(q, x, d, a, k);
  }

  lemma ReplaceFirstAt(s: string, d: string, a: string, i: nat)
    requires FindFrom(s, d, 0) == Some(i)
    ensures i + |d| <= |s| && ReplaceFirst(s, d, a) == s[..i] + a + s[i + |d|..]
  {
  }

  lemma SpliceAfterPrefix(q: string, x: string, d: string, a: string, k: nat)
    requires k + |d| <= |x|
    ensures (q + x)[..k + |q|] + a + (q + x)[k + |q| + |d|..] == q + (x[..k] + a + x[k + |d|..])
  {
    assert (q + x)[..k + |q|] == q + x[..k];
    assert (q + x)[k + |q| + |d|..] == x[k + |d|..];
  }

  /** A pattern whose first character is absent from `q` cannot start inside `q`. */
  lemma NotStartingIn(q: string, x: string, d: string)
    requires |d| > 0 && forall j :: 0 <= j < |q| ==> q[j] != d[0]
    ensures forall j :: 0 <= j < |q| ==> !OccursAt(q + x, d, j)
  {
    forall j | 0 <= j < |q|
      ensures !OccursAt(q + x, d, j)
    {
      if j + |d| <= |q + x| {
        assert (q + x)[j..j + |d|][0] == q[j] != d[0];
      }
    }
  }

  /** Neither tag can start inside a leading "# www-data". */
  lemma NoTagInCommentedUser(x: string, d: string)
    requires d == TagActive || d == TagDisabled
    ensures forall j :: 0 <= j < |CommentedUser| ==> !OccursAt(CommentedUser + x, d, j)
  {
    var s := CommentedUser + x;
    forall j | 0 <= j < |CommentedUser|
      ensures !OccursAt(s, d, j)
    {
      if j + |d| <= |s| {
        if j == 0 {
          assert s[2] == CommentedUser[2] == 'w' != d[2];
          assert s[j..j + |d|][2] != d[2];
        } else {
          assert s[j] == CommentedUser[j] != '#' == d[0];
          assert s[j..j + |d|][0] != d[0];
        }
      }
    }
  }

  /** Writing `a` (beginning with its only '#') into a line does not make it start
      with `p` if it did not already, provided `p` has '#' at most at its start and
      differs from `a` in its third character when both begin with '#'. */
  lemma ReplaceKeepsNonPrefix(l: string, d: string, a: string, p: string)
    requires !StartsWith(l, p)
    requires |a| > 2 && a[0] == '#'
    requires |p| > 2 && (forall j :: 1 <= j < |p| ==> p[j] != '#') && (p[0] == '#' ==> p[2] != a[2])
    ensures !StartsWith(ReplaceFirst(l, d, a), p)
  {
    match FindFrom(l, d, 0)
    case None =>
    case Some(i) =>
      var t := l[..i] + a + l[i + |d|..];
      if |p| <= |t| {
        if i >= |p| {
          // the prefix is untouched
          assert t[..|p|] == l[..|p|];
        } else if i > 0 {
          assert t[..|p|][i] == a[0] != p[i];
        } else if p[0] == '#' {
          assert t[..|p|][2] == a[2] != p[2];
        } else {
          assert t[..|p|][0] == a[0] != p[0];
        }
      }
  }

  lemma WordFacts()
    ensures forall j :: 0 <= j < |ActiveUser| ==> ActiveUser[j] != '#'
    ensures forall j :: 1 <= j < |CommentedUser| ==> CommentedUser[j] != '#'
    ensures forall j :: 1 <= j < |TagActive| ==> TagActive[j] != '#'
    ensures forall j :: 1 <= j < |TagDisabled| ==> TagDisabled[j] != '#'
    ensures CommentedUser == "# " + ActiveUser
  {
  }

  /** Rolling back a line that activation changed restores it, provided the line was
      in its disabled form: it did not start with the uncommented rule and carried no
      "ACTIVOS" tag. */
  lemma RollbackUndoesLine(l: string)
    requires !StartsWith(l, ActiveUser) && !Contains(l, TagActive)
    ensures EditLine(Deactivate, EditLine(Activate, l)) == l
  {
    WordFacts();
    if StartsWith(l, CommentedUser) {
      var rest := l[|CommentedUser|..];
      assert l == CommentedUser + rest;
      ContainedAfter(CommentedUser, rest, TagActive);
      assert ReplacePrefix(l, CommentedUser, ActiveUser) == ActiveUser + rest;
      NotStartingIn(ActiveUser, rest, TagDisabled);
      ReplaceFirstPastPrefix(ActiveUser, rest, TagDisabled, TagActive);
      var y := ReplaceFirst(rest, TagDisabled, TagActive);
      assert EditLine(Activate, l) == ActiveUser + y;
      assert ReplacePrefix(ActiveUser + y, ActiveUser, CommentedUser) == CommentedUser + y;
      NoTagInCommentedUser(y, TagActive);
      ReplaceFirstPastPrefix(CommentedUser, y, TagActive, TagDisabled);
      ReplaceFirstUndone(rest, TagDisabled, TagActive);
    } else {
      assert ReplacePrefix(l, CommentedUser, ActiveUser) == l;
      ReplaceKeepsNonPrefix(l, TagDisabled, TagActive, ActiveUser);
      ReplaceFirstUndone(l, TagDisabled, TagActive);
    }
  }

  /** Activating a line that rollback changed restores it, provided the line was in
      its enabled form: it did not start with the commented rule and carried no
      "DESHABILITADOS" tag. */
  lemma ActivationUndoesLine(l: string)
    requires !StartsWith(l, CommentedUser) && !Contains(l, TagDisabled)
    ensures EditLine(Activate, EditLine(Deactivate, l)) == l
  {
    WordFacts();
    if StartsWith(l, ActiveUser) {
      var rest := l[|ActiveUser|..];
      assert l == ActiveUser + rest;
      ContainedAfter(ActiveUser, rest, TagDisabled);
      assert ReplacePrefix(l, ActiveUser, CommentedUser) == CommentedUser + rest;
      NoTagInCommentedUser(rest, TagActive);
      ReplaceFirstPastPrefix(CommentedUser, rest, TagActive, TagDisabled);
      var y := ReplaceFirst(rest, TagActive, TagDisabled);
      assert EditLine(Deactivate, l) == CommentedUser + y;
      assert ReplacePrefix(CommentedUser + y, CommentedUser, ActiveUser) == ActiveUser + y;
      NotStartingIn(ActiveUser, y, TagDisabled);
      ReplaceFirstPastPrefix(ActiveUser, y, TagDisabled, TagActive);
      ReplaceFirstUndone(rest, TagActive, TagDisabled);
    } else {
      assert ReplacePrefix(l, ActiveUser, CommentedUser) == l;
      ReplaceKeepsNonPrefix(l, TagActive, TagDisabled, CommentedUser);
      ReplaceFirstUndone(l, TagActive, TagDisabled);
    }
  }

  // ------------------------------------------------------------------------
  // The file-level round trips.

  /** The rollback script undoes the activation script on a file whose block is
      in its disabled form; lines outside the block are never touched. */
  lemma RollbackUndoesActivation(lines: seq<string>)
    requires BlockDisabled(lines)
    ensures RolledBack(Activated(lines)) == lines
  {
    var act := Activated(lines);
    var sel := InBlock(lines, false);
    BlockBoundariesKept(lines, false, Activate);
    var back := RolledBack(act);
    forall i | 0 <= i < |lines|
      ensures back[i] == lines[i]
    {
      if sel[i] {
        RollbackUndoesLine(lines[i]);
      }
    }
  }

  /** Symmetrically, activation undoes a rollback on a file whose block is in its
      enabled form. */
  lemma ActivationUndoesRollback(lines: seq<string>)
    requires BlockEnabled(lines)
    ensures Activated(RolledBack(lines)) == lines
  {
    var back := RolledBack(lines);
    var sel := InBlock(lines, false);
    BlockBoundariesKept(lines, false, Deactivate);
    var act := Activated(back);
    forall i | 0 <= i < |lines|
      ensures act[i] == lines[i]
    {
      if sel[i] {
        ActivationUndoesLine(lines[i]);
      }
    }
  }
}
