/**
 * The notes-cell parser of builder/build.py run forward on cells with several
 * sub-clauses, each opened by a dash glyph and a space:
 * "ยกเว้น - <clause> - <clause> ...". Every clause is parsed on its own, with
 * the marker put back in front of it, and the maps are merged, a later clause
 * winning on a shared name.
 */
module CompoundCells {
  import opened Strings
  import opened ExceptionClauses
  import opened ClauseLists
  import opened Wrappers

  /**
   * One sub-clause as it is written: its dash glyph (a space follows it), its
   * body, and what lies between the body and the next dash: spaces, perhaps a
   * post-office annotation, and more spaces.
   */
  datatype SubClause = SubClause(dash: char, body: string, left: string, note: string, right: string)

  function SubText(c: SubClause): string {
    [c.dash, ' '] + c.body + c.left + c.note + c.right
  }

  /** The sub-clauses written one after the other. */
  function CompoundText(subs: seq<SubClause>): string {
    if subs == [] then [] else SubText(subs[0]) + CompoundText(subs[1..])
  }

  /** No "(" in `s` can open an annotation: each is followed, inside `s`, by a character other than "ไ". */
  predicate NoOpener(s: string) {
    forall i :: 0 <= i < |s| && s[i] == '(' ==> i + 1 < |s| && s[i + 1] != 'ไ'
  }

  /**
   * A clause body: not blank at either end, not ending in a dash, holding no
   * dash separator and nothing the annotation remover would delete.
   */
  predicate IsClauseBody(b: string) {
    && b != [] && !IsSpace(b[0]) && !IsSpace(b[|b| - 1]) && !IsDash(b[|b| - 1])
    && !HasDashSeparator(b) && NoOpener(b)
  }

  /** A dash glyph, a body, spaces, an annotation or nothing, spaces. */
  predicate IsSubClause(c: SubClause) {
    IsDash(c.dash) && IsClauseBody(c.body) && AllSpace(c.left) && AllSpace(c.right) && NoiseLength(c.note) == |c.note|
  }

  /** Well-formed sub-clauses, at least one, the last with nothing after its body. */
  predicate AreSubClauses(subs: seq<SubClause>) {
    && subs != []
    && (forall i :: 0 <= i < |subs| ==> IsSubClause(subs[i]))
    && subs[|subs| - 1].left == [] && subs[|subs| - 1].note == [] && subs[|subs| - 1].right == []
  }

  /** The sub-clauses with their annotations deleted. */
  function Unannotated(subs: seq<SubClause>): (r: seq<SubClause>)
    ensures |r| == |subs|
    ensures forall i :: 0 <= i < |subs| ==> r[i] == subs[i].(note := [])
  {
    if subs == [] then [] else [subs[0].(note := [])] + Unannotated(subs[1..])
  }

  /** The map each body gives when parsed as a single clause. */
  function BodyMaps(subs: seq<SubClause>): (maps: seq<ExceptionMap>)
    ensures |maps| == |subs|
    ensures forall i :: 0 <= i < |subs| ==> maps[i] == ParseSingleClause(subs[i].body)
  {
    seq(|subs|, i requires 0 <= i < |subs| => ParseSingleClause(subs[i].body))
  }

  /** The rows the dash split makes: per sub-clause, its dash alone, then its body and what follows, each behind the marker. */
  function RowsOf(subs: seq<SubClause>): (rows: seq<string>)
    ensures |rows| == 2 * |subs|
  {
    if subs == [] then []
    else
      var c := subs[0];
      [ExclusionMarker + [c.dash], ExclusionMarker + (c.body + c.left + c.note + c.right)] + RowsOf(subs[1..])
  }

  // ---------------------------------------------------------------------------
  // Annotations inside the sub-clauses
  // ---------------------------------------------------------------------------

  /** Text with no "(" opens no annotation. */
  lemma NoParenNoOpener(s: string)
    requires '(' !in s
    ensures NoOpener(s)
  {
    forall i | 0 <= i < |s| ensures s[i] != '(' { assert s[i] in s; }
  }

  lemma NoOpenerAppend(a: string, b: string)
    requires NoOpener(a) && NoOpener(b)
    ensures NoOpener(a + b)
  {
    var s := a + b;
    forall i | 0 <= i < |s| && s[i] == '(' ensures i + 1 < |s| && s[i + 1] != 'ไ' {
      if i < |a| {
        assert a[i] == '(';
      } else {
        assert b[i - |a|] == '(';
      }
    }
  }

  lemma SpacesNoOpener(s: string)
    requires AllSpace(s)
    ensures NoOpener(s) && !HasDashSeparator(s)
  {
    forall i | 0 <= i < |s| ensures s[i] != '(' && !IsDash(s[i]) { assert IsSpace(s[i]); }
    forall i | 0 <= i < |s| - 1 ensures !DashSeparatorAt(s, i) { assert IsSpace(s[i]); }
  }

  /** Text that opens no annotation is kept whole, and the scan goes on after it. */
  lemma {:induction false} OpenerFreeKept(x: string, y: string)
    requires NoOpener(x)
    ensures RemovePostOfficeNoise(x + y) == x + RemovePostOfficeNoise(y)
    decreases |x|
  {
    if x == [] {
      assert x + y == y;
    } else {
      var s := x + y;
      assert !StartsWith(s, PostOfficeOpen) by {
        if |s| >= 9 && x[0] == '(' {
          assert s[..9][1] == s[1] == x[1];
        } else if |s| >= 9 {
          assert s[..9][0] == x[0];
        }
      }
      KeepsFirst(s);
      assert NoOpener(x[1..]) by {
        forall i | 0 <= i < |x[1..]| && x[1..][i] == '(' ensures i + 1 < |x[1..]| && x[1..][i + 1] != 'ไ' {
          assert x[i + 1] == '(';
        }
      }
      OpenerFreeKept(x[1..], y);
      TailOfAppend(x, y);
      calc {
        RemovePostOfficeNoise(s);
        [x[0]] + RemovePostOfficeNoise(x[1..] + y);
        [x[0]] + (x[1..] + RemovePostOfficeNoise(y));
        { AppendAssoc([x[0]], x[1..], RemovePostOfficeNoise(y)); }
        [x[0]] + x[1..] + RemovePostOfficeNoise(y);
        { assert [x[0]] + x[1..] == x; }
        x + RemovePostOfficeNoise(y);
      }
    }
  }

  lemma TailOfAppend(x: string, y: string)
    requires x != []
    ensures (x + y)[0] == x[0] && (x + y)[1..] == x[1..] + y
  {
  }

  /** Annotations between the sub-clauses are deleted, and nothing else is. */
  lemma {:induction false} NotesRemoved(subs: seq<SubClause>)
    requires forall i :: 0 <= i < |subs| ==> IsSubClause(subs[i])
    ensures RemovePostOfficeNoise(CompoundText(subs)) == CompoundText(Unannotated(subs))
    decreases |subs|
  {
    if subs != [] {
      var c := subs[0];
      var head := [c.dash, ' '] + c.body + c.left;
      var rest := CompoundText(subs[1..]);
      var u := Unannotated(subs);
      SubClauseParts(c, rest);
      UnannotatedParts(subs);
      assert NoOpener(head) by {
        NoParenNoOpener([c.dash, ' ']);
        NoOpenerAppend([c.dash, ' '], c.body);
        SpacesNoOpener(c.left);
        NoOpenerAppend([c.dash, ' '] + c.body, c.left);
      }
      SpacesNoOpener(c.right);
      calc {
        RemovePostOfficeNoise(CompoundText(subs));
        RemovePostOfficeNoise(head + (c.note + (c.right + rest)));
        { OpenerFreeKept(head, c.note + (c.right + rest)); }
        head + RemovePostOfficeNoise(c.note + (c.right + rest));
        { LeadingNoteDropped(c.note, c.right + rest); }
        head + RemovePostOfficeNoise(c.right + rest);
        { OpenerFreeKept(c.right, rest); }
        head + (c.right + RemovePostOfficeNoise(rest));
        { NotesRemoved(subs[1..]); }
        head + (c.right + CompoundText(u[1..]));
        { AppendAssoc(head, c.right, CompoundText(u[1..])); }
        SubText(u[0]) + CompoundText(u[1..]);
        CompoundText(u);
      }
    }
  }

  /** The text of a sub-clause followed by `rest`, cut around its annotation. */
  lemma SubClauseParts(c: SubClause, rest: string)
    ensures SubText(c) + rest == ([c.dash, ' '] + c.body + c.left) + (c.note + (c.right + rest))
    ensures SubText(c.(note := [])) == [c.dash, ' '] + c.body + c.left + c.right
  { }

  /** The first sub-clause and the rest, annotations deleted. */
  lemma UnannotatedParts(subs: seq<SubClause>)
    requires subs != []
    ensures Unannotated(subs)[0] == subs[0].(note := [])
    ensures Unannotated(subs)[1..] == Unannotated(subs[1..])
    ensures CompoundText(subs) == SubText(subs[0]) + CompoundText(subs[1..])
  { }

  // ---------------------------------------------------------------------------
  // The dash split
  // ---------------------------------------------------------------------------

  /** A body and the spaces after it hold no separator. */
  lemma PaddedBodyNoSeparator(body: string, pad: string)
    requires IsClauseBody(body) && AllSpace(pad)
    ensures !HasDashSeparator(body + pad) && Strip(body + pad) != []
  {
    SpacesNoOpener(pad);
    NoSeparatorAppend(body, pad);
    assert (body + pad)[0] == body[0];
  }

  /**
   * A separator-free piece followed by annotation-free sub-clauses splits
   * into the piece's row, unless it is blank, then two rows per sub-clause.
   */
  lemma {:induction false} SplitRows(x: string, subs: seq<SubClause>)
    requires !HasDashSeparator(x)
    requires NoteFree(subs)
    ensures ClauseRows(SplitOnDash(x + CompoundText(subs))) == ClauseRows([x]) + RowsOf(subs)
    decreases |subs|
  {
    if subs == [] {
      assert x + CompoundText(subs) == x;
    } else {
      var c := subs[0];
      var pad := c.left + c.note + c.right;
      var x' := c.body + c.left + c.note + c.right;
      var y := x' + CompoundText(subs[1..]);
      var rd, rx := ExclusionMarker + [c.dash], ExclusionMarker + x';
      SplitRowsParts(x, subs);
      NoteFreeTail(subs);
      assert ClauseRows(SplitOnDash(x + [c.dash, ' '] + y)) == ClauseRows([x]) + [rd] + ClauseRows(SplitOnDash(y)) by {
        DashRowsAfterPiece(x, c.dash, y);
      }
      assert ClauseRows(SplitOnDash(y)) == [rx] + RowsOf(subs[1..]) by {
        UnannotatedPad(c);
        PaddedBodyNoSeparator(c.body, pad);
        SplitRows(x', subs[1..]);
        ClauseRowsOfOne(x');
      }
      assert ClauseRows([x]) + [rd] + ([rx] + RowsOf(subs[1..])) == ClauseRows([x]) + RowsOf(subs) by {
        RowPairAfter(ClauseRows([x]), rd, rx, RowsOf(subs[1..]));
      }

    }
  }

  /** Well-formed sub-clauses without annotations. */
  predicate NoteFree(subs: seq<SubClause>) {
    forall i :: 0 <= i < |subs| ==> IsSubClause(subs[i]) && subs[i].note == []
  }

  lemma NoteFreeTail(subs: seq<SubClause>)
    requires NoteFree(subs) && subs != []
    ensures IsSubClause(subs[0]) && subs[0].note == [] && NoteFree(subs[1..])
  {
    assert forall i :: 0 <= i < |subs| - 1 ==> subs[1..][i] == subs[i + 1];
  }

  /** With its annotation gone, what follows a body is blank. */
  lemma UnannotatedPad(c: SubClause)
    requires AllSpace(c.left) && AllSpace(c.right) && c.note == []
    ensures AllSpace(c.left + c.note + c.right)
  {
    assert c.left + c.note + c.right == c.left + c.right;
  }

  /** The first sub-clause cut off the text and the rows, the dash and the rest apart. */
  lemma SplitRowsParts(x: string, subs: seq<SubClause>)
    requires subs != []
    ensures var c := subs[0];
            var x' := c.body + c.left + c.note + c.right;
            && x' == c.body + (c.left + c.note + c.right)
            && x + CompoundText(subs) == x + [c.dash, ' '] + (x' + CompoundText(subs[1..]))
            && RowsOf(subs) == [ExclusionMarker + [c.dash], ExclusionMarker + x'] + RowsOf(subs[1..])
  {
    var c := subs[0];
    var x' := c.body + c.left + c.note + c.right;
    assert SubText(c) == [c.dash, ' '] + x';
    AppendAssoc([c.dash, ' '], x', CompoundText(subs[1..]));
    AppendAssoc(x, [c.dash, ' '], x' + CompoundText(subs[1..]));
  }

  lemma RowPairAfter(a: seq<string>, r1: string, r2: string, rest: seq<string>)
    ensures a + [r1] + ([r2] + rest) == a + ([r1, r2] + rest)
  {
  }

  /** Row `2 j` is the `j`-th dash alone, row `2 j + 1` the `j`-th body and what follows it. */
  lemma {:induction false} RowsOfAt(subs: seq<SubClause>, j: nat)
    requires j < |subs|
    ensures RowsOf(subs)[2 * j] == ExclusionMarker + [subs[j].dash]
    ensures RowsOf(subs)[2 * j + 1] == ExclusionMarker + (subs[j].body + subs[j].left + subs[j].note + subs[j].right)
    decreases j
  {
    if j > 0 {
      RowsOfAt(subs[1..], j - 1);
    }
  }

  /** The text ends with the last sub-clause. */
  lemma {:induction false} CompoundTextLast(subs: seq<SubClause>)
    requires subs != []
    ensures CompoundText(subs) == CompoundText(subs[..|subs| - 1]) + SubText(subs[|subs| - 1])
    decreases |subs|
  {
    if |subs| > 1 {
      CompoundTextLast(subs[1..]);
      assert subs[1..][..|subs| - 2] == subs[..|subs| - 1][1..];
      AppendAssoc(SubText(subs[0]), CompoundText(subs[1..][..|subs| - 2]), SubText(subs[|subs| - 1]));
    } else {
      assert subs[..0] == [];
      assert CompoundText(subs[1..]) == [];
    }
  }

  /** Well-formed sub-clauses start with a dash and end with the last body's last character. */
  lemma CompoundEnds(subs: seq<SubClause>)
    requires AreSubClauses(subs)
    ensures var t := CompoundText(subs);
            && |t| >= 2 && t[0] == subs[0].dash && t[1] == ' '
            && t[|t| - 1] == subs[|subs| - 1].body[|subs[|subs| - 1].body| - 1]
            && !IsSpace(t[|t| - 1])
  {
    var last := subs[|subs| - 1];
    assert IsSubClause(last) && IsSubClause(subs[0]);
    CompoundTextLast(subs);
    SubTextEnds(last);
    SubTextEnds(subs[0]);
    LastOfJoin(CompoundText(subs[..|subs| - 1]), SubText(last));
    FirstOfJoin(SubText(subs[0]), CompoundText(subs[1..]));
  }

  /** A sub-clause's text starts with its dash and a space; with nothing after its body, it ends with the body. */
  lemma SubTextEnds(c: SubClause)
    requires c.body != []
    ensures var x := SubText(c);
            && |x| >= 2 && x[0] == c.dash && x[1] == ' '
            && (c.left == [] && c.note == [] && c.right == [] ==> x[|x| - 1] == c.body[|c.body| - 1])
  { }

  lemma FirstOfJoin(a: string, b: string)
    requires |a| >= 2
    ensures (a + b)[0] == a[0] && (a + b)[1] == a[1]
  { }

  lemma LastOfJoin(a: string, b: string)
    requires |b| >= 1
    ensures (a + b)[|a + b| - 1] == b[|b| - 1]
  { }

  /** Marker, a body and spaces: the sub-clause row parses as the body alone. */
  lemma BodyRowMap(body: string, pad: string)
    requires IsClauseBody(body) && AllSpace(pad)
    ensures ExtractExceptionalZips(ExclusionMarker + (body + pad)) == ParseSingleClause(body)
  {
    var r := ExclusionMarker + (body + pad);
    assert NoOpener(r) by {
      NoParenNoOpener(ExclusionMarker);
      SpacesNoOpener(pad);
      NoOpenerAppend(body, pad);
      NoOpenerAppend(ExclusionMarker, body + pad);
    }
    OpenerFreeKept(r, []);
    MarkedRowParts(body, pad);
    StripOfPadded([], ExclusionMarker + body, pad);
    assert CleanClause(r) == ExclusionMarker + body;
    assert ClauseData(r) == Some(body);
  }

  lemma MarkedRowParts(body: string, pad: string)
    requires body != []
    ensures var r := ExclusionMarker + (body + pad);
            r + [] == r && r == [] + (ExclusionMarker + body) + pad
    ensures (ExclusionMarker + body)[0] == ExclusionMarker[0] && (ExclusionMarker + body)[|ExclusionMarker + body| - 1] == body[|body| - 1]
    ensures (ExclusionMarker + body)[..6] == ExclusionMarker && (ExclusionMarker + body)[6..] == body
  {
  }

  // ---------------------------------------------------------------------------
  // Merging the maps
  // ---------------------------------------------------------------------------

  /** Merging maps where every other one is empty merges the others. */
  lemma {:induction false} MergeSkipsEmpty(maps: seq<ExceptionMap>, bodies: seq<ExceptionMap>)
    requires |maps| == 2 * |bodies|
    requires forall j :: 0 <= j < |bodies| ==> maps[2 * j] == map[] && maps[2 * j + 1] == bodies[j]
    ensures MergeAll(maps) == MergeAll(bodies)
    decreases |bodies|
  {
    if bodies != [] {
      var n := |bodies|;
      var pm, pb := maps[..2 * n - 2], bodies[..n - 1];
      PairsPrefix(maps, bodies);
      MergeSkipsEmpty(pm, pb);
      LastPair(maps, bodies);
      MergeLastPair(pm, pb, bodies[n - 1]);
    }
  }

  /** Without the last pair, the maps still alternate between empty ones and the bodies. */
  lemma PairsPrefix(maps: seq<ExceptionMap>, bodies: seq<ExceptionMap>)
    requires |maps| == 2 * |bodies| && bodies != []
    requires forall j :: 0 <= j < |bodies| ==> maps[2 * j] == map[] && maps[2 * j + 1] == bodies[j]
    ensures var n := |bodies|;
            var pm, pb := maps[..2 * n - 2], bodies[..n - 1];
            && |pm| == 2 * |pb|
            && (forall j :: 0 <= j < |pb| ==> pm[2 * j] == map[] && pm[2 * j + 1] == pb[j])
            && maps[|maps| - 2] == map[] && maps[|maps| - 1] == bodies[|bodies| - 1]
  {
    var n := |bodies|;
    var pm, pb := maps[..2 * n - 2], bodies[..n - 1];
    forall j | 0 <= j < |pb| ensures pm[2 * j] == map[] && pm[2 * j + 1] == pb[j] {
      assert bodies[j] == pb[j];
    }
    assert maps[2 * (n - 1)] == map[] && maps[2 * (n - 1) + 1] == bodies[n - 1];
  }

  /** An empty map and a body merged after equal merges keep them equal. */
  lemma MergeLastPair(pm: seq<ExceptionMap>, pb: seq<ExceptionMap>, b: ExceptionMap)
    requires MergeAll(pm) == MergeAll(pb)
    ensures MergeAll(pm + [map[]] + [b]) == MergeAll(pb + [b])
  {
    MergeAllSnoc(pm + [map[]], b);
    MergeAllSnoc(pm, map[]);
    NoneAdded(MergeAll(pm));
    MergeAllSnoc(pb, b);
  }

  /** The last dash row and body row split off the rows' maps, and the last body off the bodies. */
  lemma LastPair(maps: seq<ExceptionMap>, bodies: seq<ExceptionMap>)
    requires |maps| == 2 * |bodies| && bodies != []
    requires maps[|maps| - 2] == map[] && maps[|maps| - 1] == bodies[|bodies| - 1]
    ensures maps == maps[..|maps| - 2] + [map[]] + [bodies[|bodies| - 1]]
    ensures bodies == bodies[..|bodies| - 1] + [bodies[|bodies| - 1]]
  { }

  lemma NoneAdded(m: ExceptionMap)
    ensures m + map[] == m
  { }

  /** One more map merged last. */
  lemma MergeAllSnoc(maps: seq<ExceptionMap>, m: ExceptionMap)
    ensures MergeAll(maps + [m]) == MergeAll(maps) + m
  {
    assert (maps + [m])[..|maps|] == maps;
  }

  // ---------------------------------------------------------------------------
  // The cell
  // ---------------------------------------------------------------------------

  /** An annotation-free compound cell, once cleaned: the bodies' maps merged in order. */
  lemma CleanCompoundCell(s: string, lead: string, subs: seq<SubClause>)
    requires AreSubClauses(subs) && NoteFree(subs) && AllSpace(lead)
    requires CleanClause(s) == ExclusionMarker + lead + CompoundText(subs)
    ensures ExtractExceptionalZips(s) == MergeAll(BodyMaps(subs))
  {
    var t := CompoundText(subs);
    CleanCompoundData(s, lead, subs);
    CompoundRows(subs);
    var rows := SubClauses(t);
    var maps := SubClauseMaps(rows, |s|);
    RowMaps(rows, subs, |s|);
    MergeSkipsEmpty(maps, BodyMaps(subs));
  }

  /** The cleaned cell's data is the sub-clauses' text, which holds a separator. */
  lemma CleanCompoundData(s: string, lead: string, subs: seq<SubClause>)
    requires AreSubClauses(subs) && AllSpace(lead)
    requires CleanClause(s) == ExclusionMarker + lead + CompoundText(subs)
    ensures ClauseData(s) == Some(CompoundText(subs))
    ensures HasDashSeparator(CompoundText(subs)) && Trimmed(CompoundText(subs))
  {
    var t := CompoundText(subs);
    CompoundEnds(subs);
    MarkedParts(lead, t);
    StripOfPadded(lead, t, []);
    assert DashSeparatorAt(t, 0);
  }

  /** The marker, `lead` and `t`, cut after the marker. */
  lemma MarkedParts(lead: string, t: string)
    ensures var c := ExclusionMarker + lead + t;
            c[..6] == ExclusionMarker && c[6..] == lead + t + []
  { }

  /** The dash split of the sub-clauses' text gives their rows. */
  lemma CompoundRows(subs: seq<SubClause>)
    requires AreSubClauses(subs) && NoteFree(subs)
    ensures var t := CompoundText(subs);
            HasDashSeparator(t) && Trimmed(t) && SubClauses(t) == RowsOf(subs)
  {
    CompoundTrimmed(subs);
    CompoundSplit(subs);
  }

  /** The sub-clauses' text opens on a dash separator and is trimmed. */
  lemma CompoundTrimmed(subs: seq<SubClause>)
    requires AreSubClauses(subs)
    ensures var t := CompoundText(subs);
            HasDashSeparator(t) && Trimmed(t)
  {
    var t := CompoundText(subs);
    CompoundEnds(subs);
    assert IsSubClause(subs[0]);
    DashNotSpace(subs[0].dash);
    assert DashSeparatorAt(t, 0);
  }

  /** Split at its dashes, the sub-clauses' text gives their rows. */
  lemma CompoundSplit(subs: seq<SubClause>)
    requires NoteFree(subs)
    ensures ClauseRows(SplitOnDash(CompoundText(subs))) == RowsOf(subs)
  {
    var t := CompoundText(subs);
    var e: string := [];
    assert e + t == t;
    SplitRows(e, subs);
    EmptyRow();
  }

  /** An empty piece makes no row. */
  lemma EmptyRow()
    ensures ClauseRows([[]]) == []
  {
    ClauseRowsOfOne([]);
    assert Strip([]) == [];
  }

  /** Each dash row yields nothing and each body row the body's map. */
  lemma RowMaps(rows: seq<string>, subs: seq<SubClause>, bound: nat)
    requires rows == RowsOf(subs) && NoteFree(subs)
    requires forall row :: row in rows ==> |row| < bound
    ensures var maps := SubClauseMaps(rows, bound);
            && |maps| == 2 * |subs|
            && forall j :: 0 <= j < |subs| ==> maps[2 * j] == map[] && maps[2 * j + 1] == BodyMaps(subs)[j]
  {
    forall j | 0 <= j < |subs| ensures SubClauseMaps(rows, bound)[2 * j] == map[] && SubClauseMaps(rows, bound)[2 * j + 1] == BodyMaps(subs)[j] {
      RowMapsAt(rows, subs, bound, j);
    }
  }

  lemma RowMapsAt(rows: seq<string>, subs: seq<SubClause>, bound: nat, j: nat)
    requires rows == RowsOf(subs) && NoteFree(subs) && j < |subs|
    requires forall row :: row in rows ==> |row| < bound
    ensures SubClauseMaps(rows, bound)[2 * j] == map[]
    ensures SubClauseMaps(rows, bound)[2 * j + 1] == ParseSingleClause(subs[j].body)
  {
    var c := subs[j];
    assert IsSubClause(c);
    RowsOfAt(subs, j);
    SubClauseMapAt(rows, bound, 2 * j);
    DashSegmentNoExceptions(c.dash);
    SubClauseMapAt(rows, bound, 2 * j + 1);
    UnannotatedPad(c);
    BodyRowMap(c.body, c.left + c.note + c.right);
    BodyAndPad(c);
  }

  lemma BodyAndPad(c: SubClause)
    ensures c.body + c.left + c.note + c.right == c.body + (c.left + c.note + c.right)
  { }

  /**
   * A compound cell: an annotation or nothing, spaces, "ยกเว้น", spaces, then
   * the sub-clauses. The result is the maps of the bodies, each parsed as a
   * single clause, merged in order, so a later clause wins on a shared name;
   * the dashes and the annotations add nothing.
   */
  lemma CompoundCell(before: string, gap: string, lead: string, subs: seq<SubClause>)
    requires NoiseLength(before) == |before| && AllSpace(gap) && AllSpace(lead) && AreSubClauses(subs)
    ensures ExtractExceptionalZips(before + gap + ExclusionMarker + lead + CompoundText(subs)) == MergeAll(BodyMaps(subs))
  {
    var u := Unannotated(subs);
    var s := before + gap + ExclusionMarker + lead + CompoundText(subs);
    UnannotatedFacts(subs);
    CompoundCleaned(before, gap, lead, subs);
    CleanCompoundCell(s, lead, u);
  }

  /** Deleting the annotations keeps the sub-clauses well formed and their bodies. */
  lemma UnannotatedFacts(subs: seq<SubClause>)
    requires AreSubClauses(subs)
    ensures AreSubClauses(Unannotated(subs)) && NoteFree(Unannotated(subs))
    ensures BodyMaps(Unannotated(subs)) == BodyMaps(subs)
  {
    var u := Unannotated(subs);
    forall i | 0 <= i < |u| ensures IsSubClause(u[i]) && u[i].note == [] {
      assert IsSubClause(subs[i]);
    }
  }

  /** The cleaned cell: the marker, `lead` and the sub-clauses without their annotations. */
  lemma CompoundCleaned(before: string, gap: string, lead: string, subs: seq<SubClause>)
    requires NoiseLength(before) == |before| && AllSpace(gap) && AllSpace(lead) && AreSubClauses(subs)
    ensures CleanClause(before + gap + ExclusionMarker + lead + CompoundText(subs))
            == ExclusionMarker + lead + CompoundText(Unannotated(subs))
  {
    UnannotatedFacts(subs);
    CellNoiseRemoved(before, gap, lead, subs);
    InnerEnds(lead, Unannotated(subs));
    StripCleaned(before + gap + ExclusionMarker + lead + CompoundText(subs), gap,
                 ExclusionMarker + lead + CompoundText(Unannotated(subs)));
  }

  /** Removing the annotations from the cell leaves the spaces, the marker, spaces and the bare sub-clauses. */
  lemma CellNoiseRemoved(before: string, gap: string, lead: string, subs: seq<SubClause>)
    requires NoiseLength(before) == |before| && AllSpace(gap) && AllSpace(lead) && AreSubClauses(subs)
    ensures RemovePostOfficeNoise(before + gap + ExclusionMarker + lead + CompoundText(subs))
            == gap + (ExclusionMarker + lead + CompoundText(Unannotated(subs))) + []
  {
    var t, tu := CompoundText(subs), CompoundText(Unannotated(subs));
    var front := gap + ExclusionMarker + lead;
    FrontNoOpener(gap, lead);
    UnannotatedFacts(subs);
    CellParts(before, gap, lead, t, tu);
    LeadingNoteDropped(before, front + t);
    OpenerFreeKept(front, t);
    NotesRemoved(subs);
  }

  /** The marker, spaces and sub-clauses start and end with something other than a space. */
  lemma InnerEnds(lead: string, u: seq<SubClause>)
    requires AreSubClauses(u)
    ensures var inner := ExclusionMarker + lead + CompoundText(u);
            inner != [] && !IsSpace(inner[0]) && !IsSpace(inner[|inner| - 1])
  {
    var tu := CompoundText(u);
    CompoundEnds(u);
    CellParts([], [], lead, tu, tu);
  }

  /** Text whose annotations removed leave spaces and then a trimmed `inner` cleans to `inner`. */
  lemma StripCleaned(x: string, gap: string, inner: string)
    requires AllSpace(gap) && RemovePostOfficeNoise(x) == gap + inner + []
    requires inner != [] && !IsSpace(inner[0]) && !IsSpace(inner[|inner| - 1])
    ensures CleanClause(x) == inner
  {
    NoNoise();
    StripOfPadded(gap, inner, []);
  }

  /** Spaces, the marker and spaces hold no annotation opener. */
  lemma FrontNoOpener(gap: string, lead: string)
    requires AllSpace(gap) && AllSpace(lead)
    ensures NoOpener(gap + ExclusionMarker + lead)
  {
    SpacesNoOpener(gap);
    SpacesNoOpener(lead);
    NoParenNoOpener(ExclusionMarker);
    NoOpenerAppend(gap, ExclusionMarker);
    NoOpenerAppend(gap + ExclusionMarker, lead);
  }

  /** The cell cut into the leading annotation, what precedes the sub-clauses, and the rest. */
  lemma CellParts(before: string, gap: string, lead: string, t: string, tu: string)
    requires |tu| >= 1
    ensures before + gap + ExclusionMarker + lead + t == before + ((gap + ExclusionMarker + lead) + t)
    ensures (gap + ExclusionMarker + lead) + tu == gap + (ExclusionMarker + lead + tu) + []
    ensures var inner := ExclusionMarker + lead + tu;
            !IsSpace(inner[0]) && inner[|inner| - 1] == tu[|tu| - 1]
  { }

  // ---------------------------------------------------------------------------
  // Clauses of names and a code
  // ---------------------------------------------------------------------------

  /** A list of words, " ใช้รหัส " and a code. */
  function ListedBody(entries: seq<Entry>, glues: seq<string>, code: string): string
    requires |entries| == |glues| + 1
  {
    NameList(entries, glues) + " " + CodeLead + code
  }

  /** Every designated name of the list, and nothing else, maps to the code. */
  function ListedMap(entries: seq<Entry>, code: string): ExceptionMap {
    map n | n in NamesOf(entries) :: code
  }

  /** A list clause is a clause body, and parses to its listed map. */
  lemma ListedClauseBody(entries: seq<Entry>, glues: seq<string>, code: string)
    requires |entries| == |glues| + 1
    requires forall i :: 0 <= i < |entries| ==> IsListedEntry(entries[i])
    requires forall i :: 0 <= i < |glues| ==> glues[i] != [] && IsConnective(glues[i])
    requires IsFiveDigits(code)
    ensures IsClauseBody(ListedBody(entries, glues, code))
    ensures ParseSingleClause(ListedBody(entries, glues, code)) == ListedMap(entries, code)
  {
    var list := NameList(entries, glues);
    var b := ListedBody(entries, glues, code);
    ListClause(entries, glues, code);
    ListBodyNoSeparator(entries, glues, code);
    ListPlain(entries, glues);
    EntryIsWord(entries[0]);
    ListBodyPlain(list, code);
    CodeEnds(list + " " + CodeLead, code);
    PlainNoOpener(b);
  }

  /** Text ending in a five-digit code does not end in a dash. */
  lemma CodeEnds(front: string, code: string)
    requires IsFiveDigits(code)
    ensures var b := front + code;
            b != [] && !IsDash(b[|b| - 1])
  {
    LastOfJoin(front, code);
    DigitNotDash(code[4]);
  }

  lemma DashNotSpace(c: char)
    requires IsDash(c)
    ensures !IsSpace(c)
  { }

  lemma DigitNotDash(c: char)
    requires IsDecimalDigit(c)
    ensures !IsDash(c)
  { }

  lemma PlainNoOpener(s: string)
    requires AllPlain(s)
    ensures NoOpener(s)
  {
    forall i | 0 <= i < |s| ensures s[i] != '(' { assert s[i] in s; }
  }

  /**
   * One sub-clause row of a list: "ยกเว้น", the list, " ใช้รหัส ", the code
   * and any spaces gives every designated name the code.
   */
  lemma ListedRow(entries: seq<Entry>, glues: seq<string>, code: string, pad: string)
    requires |entries| == |glues| + 1
    requires forall i :: 0 <= i < |entries| ==> IsListedEntry(entries[i])
    requires forall i :: 0 <= i < |glues| ==> glues[i] != [] && IsConnective(glues[i])
    requires IsFiveDigits(code) && AllSpace(pad)
    ensures ExtractExceptionalZips(ExclusionMarker + ListedBody(entries, glues, code) + pad) == ListedMap(entries, code)
  {
    ListedClauseBody(entries, glues, code);
    AppendAssoc(ExclusionMarker, ListedBody(entries, glues, code), pad);
    BodyRowMap(ListedBody(entries, glues, code), pad);
  }

  /** A list written out, then " ใช้รหัส " and a code, is the list's clause body. */
  lemma CodeSpacing(list: string, code: string)
    ensures list + " ใช้รหัส " + code == list + " " + CodeLead + code
  {
    assert " ใช้รหัส " == " " + CodeLead;
    AppendAssoc(list, " ", CodeLead);
  }

  /** One word, " ใช้รหัส " and a code: a clause body giving the word's name, if designated, the code. */
  lemma OneListedBody(e: Entry, code: string)
    requires IsListedEntry(e) && IsFiveDigits(code)
    ensures var b := EntryText(e) + " ใช้รหัส " + code;
            IsClauseBody(b) && ParseSingleClause(b) == ListedMap([e], code)
  {
    assert NameList([e], []) == EntryText(e);
    CodeSpacing(EntryText(e), code);
    ListedClauseBody([e], [], code);
  }

  /** Two words and their glue, " ใช้รหัส " and a code. */
  lemma TwoListedBody(e1: Entry, g: string, e2: Entry, code: string)
    requires IsListedEntry(e1) && IsListedEntry(e2) && IsFiveDigits(code)
    requires g != [] && IsConnective(g)
    ensures var b := EntryText(e1) + g + EntryText(e2) + " ใช้รหัส " + code;
            IsClauseBody(b) && ParseSingleClause(b) == ListedMap([e1, e2], code)
  {
    var entries := [e1, e2];
    assert NameList(entries[1..], []) == EntryText(e2);
    assert NameList(entries, [g]) == EntryText(e1) + g + EntryText(e2);
    CodeSpacing(EntryText(e1) + g + EntryText(e2), code);
    ListedClauseBody(entries, [g], code);
  }

  /** Three words and their glues, " ใช้รหัส " and a code. */
  lemma ThreeListedBody(e1: Entry, g1: string, e2: Entry, g2: string, e3: Entry, code: string)
    requires IsListedEntry(e1) && IsListedEntry(e2) && IsListedEntry(e3) && IsFiveDigits(code)
    requires g1 != [] && IsConnective(g1) && g2 != [] && IsConnective(g2)
    ensures var b := EntryText(e1) + g1 + EntryText(e2) + g2 + EntryText(e3) + " ใช้รหัส " + code;
            IsClauseBody(b) && ParseSingleClause(b) == ListedMap([e1, e2, e3], code)
  {
    var list := EntryText(e1) + g1 + EntryText(e2) + g2 + EntryText(e3);
    ThreeWritten(e1, g1, e2, g2, e3);
    CodeSpacing(list, code);
    ListedCons(e2, [e3]);
    Cons2(e2, e3);
    ListedCons(e1, [e2, e3]);
    Cons3(e1, e2, e3);
    GlueCons(g1, [g2]);
    Cons2(g1, g2);
    ListedClauseBody([e1, e2, e3], [g1, g2], code);
  }

  /** Four words and their glues, " ใช้รหัส " and a code. */
  lemma FourListedBody(e1: Entry, g1: string, e2: Entry, g2: string, e3: Entry, g3: string, e4: Entry, code: string)
    requires IsListedEntry(e1) && IsListedEntry(e2) && IsListedEntry(e3) && IsListedEntry(e4) && IsFiveDigits(code)
    requires g1 != [] && IsConnective(g1) && g2 != [] && IsConnective(g2) && g3 != [] && IsConnective(g3)
    ensures var b := EntryText(e1) + g1 + EntryText(e2) + g2 + EntryText(e3) + g3 + EntryText(e4) + " ใช้รหัส " + code;
            IsClauseBody(b) && ParseSingleClause(b) == ListedMap([e1, e2, e3, e4], code)
  {
    var list := EntryText(e1) + g1 + EntryText(e2) + g2 + EntryText(e3) + g3 + EntryText(e4);
    FourWritten(e1, g1, e2, g2, e3, g3, e4);
    CodeSpacing(list, code);
    ListedCons(e3, [e4]);
    Cons2(e3, e4);
    ListedCons(e2, [e3, e4]);
    Cons3(e2, e3, e4);
    ListedCons(e1, [e2, e3, e4]);
    Cons4(e1, e2, e3, e4);
    GlueCons(g2, [g3]);
    Cons2(g2, g3);
    GlueCons(g1, [g2, g3]);
    Cons3(g1, g2, g3);
    ListedClauseBody([e1, e2, e3, e4], [g1, g2, g3], code);
  }

  /** Three words and two glues written one after the other are their list. */
  lemma ThreeWritten(e1: Entry, g1: string, e2: Entry, g2: string, e3: Entry)
    ensures EntryText(e1) + g1 + EntryText(e2) + g2 + EntryText(e3) == NameList([e1, e2, e3], [g1, g2])
  {
    var p: string := [];
    var t3 := [e3];
    var t2 := [e2] + t3;
    var h2: seq<string> := [];
    var h1 := [g2] + h2;
    var q1 := p + EntryText(e1) + g1;
    var q2 := q1 + EntryText(e2) + g2;
    WrittenStep(p, e1, g1, t2, h1);
    WrittenStep(q1, e2, g2, t3, h2);
    assert WrittenAfter(q2, t3, h2) == q2 + EntryText(e3);
    assert [e1] + t2 == [e1, e2, e3];
    assert [g1] + h1 == [g1, g2];
    assert p + EntryText(e1) == EntryText(e1);
    assert p + NameList([e1, e2, e3], [g1, g2]) == NameList([e1, e2, e3], [g1, g2]);
  }

  /** Four words and three glues written one after the other are their list. */
  lemma FourWritten(e1: Entry, g1: string, e2: Entry, g2: string, e3: Entry, g3: string, e4: Entry)
    ensures EntryText(e1) + g1 + EntryText(e2) + g2 + EntryText(e3) + g3 + EntryText(e4) == NameList([e1, e2, e3, e4], [g1, g2, g3])
  {
    var p: string := [];
    var t4 := [e4];
    var t3 := [e3] + t4;
    var t2 := [e2] + t3;
    var h3: seq<string> := [];
    var h2 := [g3] + h3;
    var h1 := [g2] + h2;
    var q1 := p + EntryText(e1) + g1;
    var q2 := q1 + EntryText(e2) + g2;
    var q3 := q2 + EntryText(e3) + g3;
    WrittenStep(p, e1, g1, t2, h1);
    WrittenStep(q1, e2, g2, t3, h2);
    WrittenStep(q2, e3, g3, t4, h3);
    assert WrittenAfter(q3, t4, h3) == q3 + EntryText(e4);
    assert [e1] + t2 == [e1, e2, e3, e4];
    assert [g1] + h1 == [g1, g2, g3];
    assert p + EntryText(e1) == EntryText(e1);
    assert p + NameList([e1, e2, e3, e4], [g1, g2, g3]) == NameList([e1, e2, e3, e4], [g1, g2, g3]);
  }

  // ---------------------------------------------------------------------------
  // Cells of two, three and four sub-clauses
  // ---------------------------------------------------------------------------

  /** A sub-clause with only spaces after its body. */
  lemma PaddedSubText(d: char, body: string, pad: string)
    ensures SubText(SubClause(d, body, pad, [], [])) == [d, ' '] + body + pad
  { }

  lemma CompoundTextCons(c: SubClause, rest: seq<SubClause>)
    ensures CompoundText([c] + rest) == SubText(c) + CompoundText(rest)
  {
    assert ([c] + rest)[1..] == rest;
  }

  lemma CompoundTextOne(c: SubClause)
    ensures CompoundText([c]) == SubText(c)
  {
    assert [c][1..] == [];
  }

  lemma BodyMapsOf(subs: seq<SubClause>, maps: seq<ExceptionMap>)
    requires |maps| == |subs| && forall i :: 0 <= i < |subs| ==> maps[i] == ParseSingleClause(subs[i].body)
    ensures BodyMaps(subs) == maps
  { }

  lemma MergeTwo(m1: ExceptionMap, m2: ExceptionMap)
    ensures MergeAll([m1, m2]) == m1 + m2
  {
    MergeAllSnoc([], m1);
    assert [] + [m1] == [m1];
    MergeAllSnoc([m1], m2);
    assert [m1] + [m2] == [m1, m2];
    assert map[] + m1 == m1;
  }

  lemma MergeThree(m1: ExceptionMap, m2: ExceptionMap, m3: ExceptionMap)
    ensures MergeAll([m1, m2, m3]) == m1 + m2 + m3
  {
    MergeTwo(m1, m2);
    MergeAllSnoc([m1, m2], m3);
    assert [m1, m2] + [m3] == [m1, m2, m3];
  }

  lemma MergeFour(m1: ExceptionMap, m2: ExceptionMap, m3: ExceptionMap, m4: ExceptionMap)
    ensures MergeAll([m1, m2, m3, m4]) == m1 + m2 + m3 + m4
  {
    MergeThree(m1, m2, m3);
    MergeAllSnoc([m1, m2, m3], m4);
    assert [m1, m2, m3] + [m4] == [m1, m2, m3, m4];
  }

  /**
   * Two sub-clauses after an annotation or nothing, spaces, "ยกเว้น" and
   * spaces: the second body's map merged over the first's.
   */
  lemma TwoClauseCell(s: string, before: string, gap: string, lead: string, c1: SubClause, c2: SubClause)
    requires NoiseLength(before) == |before| && AllSpace(gap) && AllSpace(lead)
    requires IsSubClause(c1) && IsSubClause(c2) && c2.left == [] && c2.note == [] && c2.right == []
    requires s == before + gap + ExclusionMarker + lead + SubText(c1) + SubText(c2)
    ensures ExtractExceptionalZips(s) == ParseSingleClause(c1.body) + ParseSingleClause(c2.body)
  {
    var x := before + gap + ExclusionMarker + lead;
    var m1, m2 := ParseSingleClause(c1.body), ParseSingleClause(c2.body);
    TwoSubClauses(c1, c2);
    calc {
      ExtractExceptionalZips(s);
      { AppendAssoc(x, SubText(c1), SubText(c2)); }
      ExtractExceptionalZips(x + CompoundText([c1, c2]));
      { CompoundCell(before, gap, lead, [c1, c2]); }
      MergeAll(BodyMaps([c1, c2]));
      MergeAll([m1, m2]);
      { MergeTwo(m1, m2); }
      m1 + m2;
    }
  }

  /** Three sub-clauses: the bodies' maps merged in order. */
  lemma ThreeClauseCell(s: string, before: string, gap: string, lead: string, c1: SubClause, c2: SubClause, c3: SubClause)
    requires NoiseLength(before) == |before| && AllSpace(gap) && AllSpace(lead)
    requires IsSubClause(c1) && IsSubClause(c2) && IsSubClause(c3) && c3.left == [] && c3.note == [] && c3.right == []
    requires s == before + gap + ExclusionMarker + lead + SubText(c1) + SubText(c2) + SubText(c3)
    ensures ExtractExceptionalZips(s) == ParseSingleClause(c1.body) + ParseSingleClause(c2.body) + ParseSingleClause(c3.body)
  {
    var x := before + gap + ExclusionMarker + lead;
    var m1, m2, m3 := ParseSingleClause(c1.body), ParseSingleClause(c2.body), ParseSingleClause(c3.body);
    ThreeSubClauses(c1, c2, c3);
    calc {
      ExtractExceptionalZips(s);
      { AppendThree(x, SubText(c1), SubText(c2), SubText(c3)); }
      ExtractExceptionalZips(x + CompoundText([c1, c2, c3]));
      { CompoundCell(before, gap, lead, [c1, c2, c3]); }
      MergeAll(BodyMaps([c1, c2, c3]));
      MergeAll([m1, m2, m3]);
      { MergeThree(m1, m2, m3); }
      m1 + m2 + m3;
    }
  }

  /** Four sub-clauses: the bodies' maps merged in order. */
  lemma FourClauseCell(s: string, before: string, gap: string, lead: string, c1: SubClause, c2: SubClause, c3: SubClause, c4: SubClause)
    requires NoiseLength(before) == |before| && AllSpace(gap) && AllSpace(lead)
    requires IsSubClause(c1) && IsSubClause(c2) && IsSubClause(c3) && IsSubClause(c4)
    requires c4.left == [] && c4.note == [] && c4.right == []
    requires s == before + gap + ExclusionMarker + lead + SubText(c1) + SubText(c2) + SubText(c3) + SubText(c4)
    ensures ExtractExceptionalZips(s)
            == ParseSingleClause(c1.body) + ParseSingleClause(c2.body) + ParseSingleClause(c3.body) + ParseSingleClause(c4.body)
  {
    var x := before + gap + ExclusionMarker + lead;
    var m1, m2 := ParseSingleClause(c1.body), ParseSingleClause(c2.body);
    var m3, m4 := ParseSingleClause(c3.body), ParseSingleClause(c4.body);
    FourSubClauses(c1, c2, c3, c4);
    calc {
      ExtractExceptionalZips(s);
      { AppendFour(x, SubText(c1), SubText(c2), SubText(c3), SubText(c4)); }
      ExtractExceptionalZips(x + CompoundText([c1, c2, c3, c4]));
      { CompoundCell(before, gap, lead, [c1, c2, c3, c4]); }
      MergeAll(BodyMaps([c1, c2, c3, c4]));
      MergeAll([m1, m2, m3, m4]);
      { MergeFour(m1, m2, m3, m4); }
      m1 + m2 + m3 + m4;
    }
  }

  /** Two well-formed sub-clauses: their text and their bodies' maps. */
  lemma TwoSubClauses(c1: SubClause, c2: SubClause)
    requires IsSubClause(c1) && IsSubClause(c2) && c2.left == [] && c2.note == [] && c2.right == []
    ensures AreSubClauses([c1, c2])
    ensures CompoundText([c1, c2]) == SubText(c1) + SubText(c2)
    ensures BodyMaps([c1, c2]) == [ParseSingleClause(c1.body), ParseSingleClause(c2.body)]
  {
    LastSubClause(c2);
    Cons2(c1, c2);
    SubClausesCons(c1, [c2]);
    CompoundTextCons(c1, [c2]);
    CompoundTextOne(c2);
    BodyMapsCons(c1, [c2]);
    Cons2(ParseSingleClause(c1.body), ParseSingleClause(c2.body));
  }

  lemma ThreeSubClauses(c1: SubClause, c2: SubClause, c3: SubClause)
    requires IsSubClause(c1) && IsSubClause(c2) && IsSubClause(c3) && c3.left == [] && c3.note == [] && c3.right == []
    ensures AreSubClauses([c1, c2, c3])
    ensures CompoundText([c1, c2, c3]) == SubText(c1) + (SubText(c2) + SubText(c3))
    ensures BodyMaps([c1, c2, c3]) == [ParseSingleClause(c1.body), ParseSingleClause(c2.body), ParseSingleClause(c3.body)]
  {
    TwoSubClauses(c2, c3);
    Cons3(c1, c2, c3);
    SubClausesCons(c1, [c2, c3]);
    CompoundTextCons(c1, [c2, c3]);
    BodyMapsCons(c1, [c2, c3]);
    Cons3(ParseSingleClause(c1.body), ParseSingleClause(c2.body), ParseSingleClause(c3.body));
  }

  lemma FourSubClauses(c1: SubClause, c2: SubClause, c3: SubClause, c4: SubClause)
    requires IsSubClause(c1) && IsSubClause(c2) && IsSubClause(c3) && IsSubClause(c4)
    requires c4.left == [] && c4.note == [] && c4.right == []
    ensures AreSubClauses([c1, c2, c3, c4])
    ensures CompoundText([c1, c2, c3, c4]) == SubText(c1) + (SubText(c2) + (SubText(c3) + SubText(c4)))
    ensures BodyMaps([c1, c2, c3, c4])
            == [ParseSingleClause(c1.body), ParseSingleClause(c2.body), ParseSingleClause(c3.body), ParseSingleClause(c4.body)]
  {
    ThreeSubClauses(c2, c3, c4);
    Cons4(c1, c2, c3, c4);
    SubClausesCons(c1, [c2, c3, c4]);
    CompoundTextCons(c1, [c2, c3, c4]);
    BodyMapsCons(c1, [c2, c3, c4]);
    Cons4(ParseSingleClause(c1.body), ParseSingleClause(c2.body), ParseSingleClause(c3.body), ParseSingleClause(c4.body));
  }

  lemma Cons2<T>(a: T, b: T)
    ensures [a] + [b] == [a, b]
  { }

  lemma Cons3<T>(a: T, b: T, c: T)
    ensures [a] + [b, c] == [a, b, c]
  { }

  lemma Cons4<T>(a: T, b: T, c: T, d: T)
    ensures [a] + [b, c, d] == [a, b, c, d]
  { }

  lemma LastSubClause(c: SubClause)
    requires IsSubClause(c) && c.left == [] && c.note == [] && c.right == []
    ensures AreSubClauses([c])
  { }

  /** One more well-formed sub-clause in front. */
  lemma SubClausesCons(c: SubClause, rest: seq<SubClause>)
    requires IsSubClause(c) && AreSubClauses(rest)
    ensures AreSubClauses([c] + rest)
    ensures ([c] + rest)[1..] == rest
  {
    var subs := [c] + rest;
    forall i | 0 <= i < |subs| ensures IsSubClause(subs[i]) {
      if i > 0 {
        assert subs[i] == rest[i - 1];
      }
    }
  }

  lemma BodyMapsCons(c: SubClause, rest: seq<SubClause>)
    ensures BodyMaps([c] + rest) == [ParseSingleClause(c.body)] + BodyMaps(rest)
  {
    BodyMapsOf([c] + rest, [ParseSingleClause(c.body)] + BodyMaps(rest));
  }

  lemma AppendThree(x: string, a: string, b: string, c: string)
    ensures x + (a + (b + c)) == x + a + b + c
  { }

  lemma AppendFour(x: string, a: string, b: string, c: string, d: string)
    ensures x + (a + (b + (c + d))) == x + a + b + c + d
  { }

  /**
   * Two list clauses, each after a dash and a space: the union of their maps,
   * the second clause's code winning on a name both give.
   */
  lemma TwoListedClauses(lead: string, d1: char, entries1: seq<Entry>, glues1: seq<string>, code1: string, pad: string,
                         d2: char, entries2: seq<Entry>, glues2: seq<string>, code2: string)
    requires IsDash(d1) && IsDash(d2) && AllSpace(lead) && AllSpace(pad)
    requires |entries1| == |glues1| + 1 && |entries2| == |glues2| + 1
    requires forall i :: 0 <= i < |entries1| ==> IsListedEntry(entries1[i])
    requires forall i :: 0 <= i < |glues1| ==> glues1[i] != [] && IsConnective(glues1[i])
    requires forall i :: 0 <= i < |entries2| ==> IsListedEntry(entries2[i])
    requires forall i :: 0 <= i < |glues2| ==> glues2[i] != [] && IsConnective(glues2[i])
    requires IsFiveDigits(code1) && IsFiveDigits(code2)
    ensures ExtractExceptionalZips(ExclusionMarker + lead + [d1, ' '] + ListedBody(entries1, glues1, code1) + pad
                                   + [d2, ' '] + ListedBody(entries2, glues2, code2))
            == ListedMap(entries1, code1) + ListedMap(entries2, code2)
  {
    var b1, b2 := ListedBody(entries1, glues1, code1), ListedBody(entries2, glues2, code2);
    var c1, c2 := SubClause(d1, b1, pad, [], []), SubClause(d2, b2, [], [], []);
    ListedClauseBody(entries1, glues1, code1);
    ListedClauseBody(entries2, glues2, code2);
    PaddedSubClause(d1, b1, pad);
    PaddedSubClause(d2, b2, []);
    NoNoise();
    TwoPaddedTexts(lead, d1, b1, pad, d2, b2);
    TwoClauseCell(ExclusionMarker + lead + [d1, ' '] + b1 + pad + [d2, ' '] + b2, [], [], lead, c1, c2);
  }

  /** Two sub-clauses written out, the first followed by spaces. */
  lemma TwoPaddedTexts(lead: string, d1: char, b1: string, pad: string, d2: char, b2: string)
    ensures ExclusionMarker + lead + [d1, ' '] + b1 + pad + [d2, ' '] + b2
            == [] + [] + ExclusionMarker + lead + SubText(SubClause(d1, b1, pad, [], [])) + SubText(SubClause(d2, b2, [], [], []))
  { }

  /** A dash, a body and spaces make a well-formed sub-clause. */
  lemma PaddedSubClause(d: char, body: string, pad: string)
    requires IsDash(d) && IsClauseBody(body) && AllSpace(pad)
    ensures IsSubClause(SubClause(d, body, pad, [], []))
  {
    NoNoise();
  }

  /** Empty text is a whole annotation run, and all spaces. */
  lemma NoNoise()
    ensures NoiseLength([]) == 0 && AllSpace([])
  { }

  // ---------------------------------------------------------------------------
  // Cells from the builder's tests
  // ---------------------------------------------------------------------------

  /** A dash glyph and the space after it. */
  predicate IsDashLead(d: string) {
    |d| == 2 && IsDash(d[0]) && d[1] == ' '
  }

  /**
   * Four clause bodies after "ยกเว้น" and spaces, each after a dash and a
   * space, each but the last followed by spaces: the merge of their maps.
   */
  lemma FourClauseBodies(cell: string, lead: string, d1: string, b1: string, p1: string, d2: string, b2: string, p2: string,
                         d3: string, b3: string, p3: string, d4: string, b4: string)
    requires IsDashLead(d1) && IsDashLead(d2) && IsDashLead(d3) && IsDashLead(d4)
    requires IsClauseBody(b1) && IsClauseBody(b2) && IsClauseBody(b3) && IsClauseBody(b4)
    requires AllSpace(lead) && AllSpace(p1) && AllSpace(p2) && AllSpace(p3)
    requires cell == ExclusionMarker + lead + (d1 + b1 + p1) + (d2 + b2 + p2) + (d3 + b3 + p3) + (d4 + b4)
    ensures ExtractExceptionalZips(cell)
            == ParseSingleClause(b1) + ParseSingleClause(b2) + ParseSingleClause(b3) + ParseSingleClause(b4)
  {
    var c1, c2 := SubClause(d1[0], b1, p1, [], []), SubClause(d2[0], b2, p2, [], []);
    var c3, c4 := SubClause(d3[0], b3, p3, [], []), SubClause(d4[0], b4, [], [], []);
    PaddedSubClause(d1[0], b1, p1);
    PaddedSubClause(d2[0], b2, p2);
    PaddedSubClause(d3[0], b3, p3);
    PaddedSubClause(d4[0], b4, []);
    assert d1 == [d1[0], ' '] && d2 == [d2[0], ' '] && d3 == [d3[0], ' '] && d4 == [d4[0], ' '];
    FourPaddedTexts(ExclusionMarker, lead, d1[0], b1, p1, d2[0], b2, p2, d3[0], b3, p3, d4[0], b4);
    FourClauseCell(cell, [], [], lead, c1, c2, c3, c4);
  }

  /** Four sub-clauses written out, each but the last followed by spaces. */
  lemma FourPaddedTexts(m: string, lead: string, d1: char, b1: string, p1: string, d2: char, b2: string, p2: string,
                        d3: char, b3: string, p3: string, d4: char, b4: string)
    ensures m + lead + ([d1, ' '] + b1 + p1) + ([d2, ' '] + b2 + p2) + ([d3, ' '] + b3 + p3) + ([d4, ' '] + b4)
            == [] + [] + m + lead + SubText(SubClause(d1, b1, p1, [], [])) + SubText(SubClause(d2, b2, p2, [], []))
               + SubText(SubClause(d3, b3, p3, [], [])) + SubText(SubClause(d4, b4, [], [], []))
  { }

  lemma DesignatedFour(e1: Entry, e2: Entry, e3: Entry, e4: Entry, code: string)
    requires e1.designator != [] && e2.designator != [] && e3.designator != [] && e4.designator != []
    ensures ListedMap([e1, e2, e3, e4], code) == map[e1.name := code, e2.name := code, e3.name := code, e4.name := code]
  {
    NamesOfDesignated([e1, e2, e3, e4]);
    assert NamesOf([e1, e2, e3, e4]) == [e1.name, e2.name, e3.name, e4.name];
    FourNameMap(e1.name, e2.name, e3.name, e4.name, code);
  }

  lemma DesignatedThree(e1: Entry, e2: Entry, e3: Entry, code: string)
    requires e1.designator != [] && e2.designator != [] && e3.designator != []
    ensures ListedMap([e1, e2, e3], code) == map[e1.name := code, e2.name := code, e3.name := code]
  {
    NamesOfDesignated([e1, e2, e3]);
    assert NamesOf([e1, e2, e3]) == [e1.name, e2.name, e3.name];
    ThreeNameMap(e1.name, e2.name, e3.name, code);
  }

  lemma DesignatedTwo(e1: Entry, e2: Entry, code: string)
    requires e1.designator != [] && e2.designator != []
    ensures ListedMap([e1, e2], code) == map[e1.name := code, e2.name := code]
  {
    NamesOfDesignated([e1, e2]);
    assert NamesOf([e1, e2]) == [e1.name, e2.name];
    TwoNameMap(e1.name, e2.name, code);
  }

  lemma DesignatedOne(e: Entry, code: string)
    requires e.designator != []
    ensures ListedMap([e], code) == map[e.name := code]
  {
    NamesOfDesignated([e]);
    assert NamesOf([e]) == [e.name];
    NameMapOfOne(e.name, code);
  }

  /** Merging maps written out key by key: later keys override earlier ones, as in one map display. */
  lemma UnionOfDisplays<K, V>(k1: K, k2: K, k3: K, k4: K, x: V, k5: K, k6: K, k7: K, y: V, k8: K, k9: K, z: V, k10: K, w: V)
    ensures map[k1 := x, k2 := x, k3 := x, k4 := x] + map[k5 := y, k6 := y, k7 := y] + map[k8 := z, k9 := z] + map[k10 := w]
            == map[k1 := x, k2 := x, k3 := x, k4 := x, k5 := y, k6 := y, k7 := y, k8 := z, k9 := z, k10 := w]
  { }

  /**
   * Four sub-clauses of four, three, two and one names after "ตำบล", each
   * after "- ", the first three followed by two or four spaces: every name
   * gets the code of its own clause, a later clause winning on a shared name.
   */
  lemma FourTambonClauses(cell: string, n1: string, g1: string, n2: string, g2: string, n3: string, g3: string, n4: string, code1: string,
                          n5: string, g5: string, n6: string, g6: string, n7: string, code2: string,
                          n8: string, g8: string, n9: string, code3: string, n10: string, code4: string)
    requires IsListedEntry(Entry(Tambon, n1)) && IsListedEntry(Entry(Tambon, n2)) && IsListedEntry(Entry(Tambon, n3))
    requires IsListedEntry(Entry(Tambon, n4)) && IsListedEntry(Entry(Tambon, n5)) && IsListedEntry(Entry(Tambon, n6))
    requires IsListedEntry(Entry(Tambon, n7)) && IsListedEntry(Entry(Tambon, n8)) && IsListedEntry(Entry(Tambon, n9))
    requires IsListedEntry(Entry(Tambon, n10))
    requires g1 != [] && IsConnective(g1) && g2 != [] && IsConnective(g2) && g3 != [] && IsConnective(g3)
    requires g5 != [] && IsConnective(g5) && g6 != [] && IsConnective(g6) && g8 != [] && IsConnective(g8)
    requires IsFiveDigits(code1) && IsFiveDigits(code2) && IsFiveDigits(code3) && IsFiveDigits(code4)
    requires cell == "ยกเว้น" + "  "
                     + ("- " + (("ตำบล" + n1) + g1 + ("ตำบล" + n2) + g2 + ("ตำบล" + n3) + g3 + ("ตำบล" + n4) + " ใช้รหัส " + code1) + "  ")
                     + ("- " + (("ตำบล" + n5) + g5 + ("ตำบล" + n6) + g6 + ("ตำบล" + n7) + " ใช้รหัส " + code2) + "    ")
                     + ("- " + (("ตำบล" + n8) + g8 + ("ตำบล" + n9) + " ใช้รหัส " + code3) + "  ")
                     + ("- " + (("ตำบล" + n10) + " ใช้รหัส " + code4))
    ensures ExtractExceptionalZips(cell)
            == map[n1 := code1, n2 := code1, n3 := code1, n4 := code1, n5 := code2, n6 := code2, n7 := code2,
                   n8 := code3, n9 := code3, n10 := code4]
  {
    var b1 := ("ตำบล" + n1) + g1 + ("ตำบล" + n2) + g2 + ("ตำบล" + n3) + g3 + ("ตำบล" + n4) + " ใช้รหัส " + code1;
    var b2 := ("ตำบล" + n5) + g5 + ("ตำบล" + n6) + g6 + ("ตำบล" + n7) + " ใช้รหัส " + code2;
    var b3 := ("ตำบล" + n8) + g8 + ("ตำบล" + n9) + " ใช้รหัส " + code3;
    var b4 := ("ตำบล" + n10) + " ใช้รหัส " + code4;
    TambonFourBody(n1, g1, n2, g2, n3, g3, n4, code1);
    TambonThreeBody(n5, g5, n6, g6, n7, code2);
    TambonTwoBody(n8, g8, n9, code3);
    TambonOneBody(n10, code4);
    Pads();
    calc {
      ExtractExceptionalZips(cell);
      { FourClauseBodies(cell, "  ", "- ", b1, "  ", "- ", b2, "    ", "- ", b3, "  ", "- ", b4); }
      ParseSingleClause(b1) + ParseSingleClause(b2) + ParseSingleClause(b3) + ParseSingleClause(b4);
      map[n1 := code1, n2 := code1, n3 := code1, n4 := code1] + map[n5 := code2, n6 := code2, n7 := code2]
        + map[n8 := code3, n9 := code3] + map[n10 := code4];
      { UnionOfDisplays(n1, n2, n3, n4, code1, n5, n6, n7, code2, n8, n9, code3, n10, code4); }
      map[n1 := code1, n2 := code1, n3 := code1, n4 := code1, n5 := code2, n6 := code2, n7 := code2,
          n8 := code3, n9 := code3, n10 := code4];
    }
  }

  /** The dash leads and the runs of spaces the builder's test cells use. */
  lemma Pads()
    ensures IsDashLead("- ") && IsDashLead("\U{2212} ")
    ensures AllSpace(" ") && AllSpace("  ") && AllSpace("    ")
  { }

  /**
   * "ยกเว้น  - ตำบลอออ ตำบลขขข ตำบลจจจ และตำบลกกก ใช้รหัส 12345  - ตำบลยยย
   * ตำบลฑฑฑ และตำบลฤฤฤ ใช้รหัส 23456    - ตำบลปปปและตำบลสสส ใช้รหัส 98765
   * - ตำบลฮฮฮ ใช้รหัส 76156": ten names, each with its clause's code.
   */
  lemma FourListClauses(cell: string)
    requires cell == "ยกเว้น" + "  "
                     + ("- " + (("ตำบล" + "อออ") + " " + ("ตำบล" + "ขขข") + " " + ("ตำบล" + "จจจ") + " และ" + ("ตำบล" + "กกก") + " ใช้รหัส " + "12345") + "  ")
                     + ("- " + (("ตำบล" + "ยยย") + " " + ("ตำบล" + "ฑฑฑ") + " และ" + ("ตำบล" + "ฤฤฤ") + " ใช้รหัส " + "23456") + "    ")
                     + ("- " + (("ตำบล" + "ปปป") + "และ" + ("ตำบล" + "สสส") + " ใช้รหัส " + "98765") + "  ")
                     + ("- " + (("ตำบล" + "ฮฮฮ") + " ใช้รหัส " + "76156"))
    ensures ExtractExceptionalZips(cell)
            == map["อออ" := "12345", "ขขข" := "12345", "จจจ" := "12345", "กกก" := "12345",
                   "ยยย" := "23456", "ฑฑฑ" := "23456", "ฤฤฤ" := "23456",
                   "ปปป" := "98765", "สสส" := "98765", "ฮฮฮ" := "76156"]
  {
    FirstTestWords();
    MixedListGlues();
    assert IsConnective(Conjunction) by { assert Conjunction[3..] == []; }
    FourTambonClauses(cell, "อออ", " ", "ขขข", " ", "จจจ", " และ", "กกก", "12345", "ยยย", " ", "ฑฑฑ", " และ", "ฤฤฤ", "23456",
                      "ปปป", Conjunction, "สสส", "98765", "ฮฮฮ", "76156");
  }

  /** Four names after "ตำบล" and their glues, " ใช้รหัส " and a code: each name gets the code. */
  lemma TambonFourBody(n1: string, g1: string, n2: string, g2: string, n3: string, g3: string, n4: string, code: string)
    requires IsListedEntry(Entry(Tambon, n1)) && IsListedEntry(Entry(Tambon, n2))
    requires IsListedEntry(Entry(Tambon, n3)) && IsListedEntry(Entry(Tambon, n4)) && IsFiveDigits(code)
    requires g1 != [] && IsConnective(g1) && g2 != [] && IsConnective(g2) && g3 != [] && IsConnective(g3)
    ensures var b := ("ตำบล" + n1) + g1 + ("ตำบล" + n2) + g2 + ("ตำบล" + n3) + g3 + ("ตำบล" + n4) + " ใช้รหัส " + code;
            IsClauseBody(b) && ParseSingleClause(b) == map[n1 := code, n2 := code, n3 := code, n4 := code]
  {
    var e1, e2, e3, e4 := Entry(Tambon, n1), Entry(Tambon, n2), Entry(Tambon, n3), Entry(Tambon, n4);
    FourListedBody(e1, g1, e2, g2, e3, g3, e4, code);
    DesignatedFour(e1, e2, e3, e4, code);
  }

  /** Three names after "ตำบล" and their glues, " ใช้รหัส " and a code. */
  lemma TambonThreeBody(n1: string, g1: string, n2: string, g2: string, n3: string, code: string)
    requires IsListedEntry(Entry(Tambon, n1)) && IsListedEntry(Entry(Tambon, n2)) && IsListedEntry(Entry(Tambon, n3))
    requires IsFiveDigits(code) && g1 != [] && IsConnective(g1) && g2 != [] && IsConnective(g2)
    ensures var b := ("ตำบล" + n1) + g1 + ("ตำบล" + n2) + g2 + ("ตำบล" + n3) + " ใช้รหัส " + code;
            IsClauseBody(b) && ParseSingleClause(b) == map[n1 := code, n2 := code, n3 := code]
  {
    var e1, e2, e3 := Entry(Tambon, n1), Entry(Tambon, n2), Entry(Tambon, n3);
    ThreeListedBody(e1, g1, e2, g2, e3, code);
    DesignatedThree(e1, e2, e3, code);
  }

  /** Two names after "ตำบล" and their glue, " ใช้รหัส " and a code. */
  lemma TambonTwoBody(n1: string, g: string, n2: string, code: string)
    requires IsListedEntry(Entry(Tambon, n1)) && IsListedEntry(Entry(Tambon, n2))
    requires IsFiveDigits(code) && g != [] && IsConnective(g)
    ensures var b := ("ตำบล" + n1) + g + ("ตำบล" + n2) + " ใช้รหัส " + code;
            IsClauseBody(b) && ParseSingleClause(b) == map[n1 := code, n2 := code]
  {
    var e1, e2 := Entry(Tambon, n1), Entry(Tambon, n2);
    TwoListedBody(e1, g, e2, code);
    DesignatedTwo(e1, e2, code);
  }

  /** One name after "ตำบล", " ใช้รหัส " and a code. */
  lemma TambonOneBody(n: string, code: string)
    requires IsListedEntry(Entry(Tambon, n)) && IsFiveDigits(code)
    ensures var b := ("ตำบล" + n) + " ใช้รหัส " + code;
            IsClauseBody(b) && ParseSingleClause(b) == map[n := code]
  {
    var e := Entry(Tambon, n);
    OneListedBody(e, code);
    DesignatedOne(e, code);
  }

  /** The ten words of the four-clause cell are listed entries. */
  lemma FirstTestWords()
    ensures IsListedEntry(Entry(Tambon, "อออ")) && IsListedEntry(Entry(Tambon, "ขขข")) && IsListedEntry(Entry(Tambon, "จจจ"))
    ensures IsListedEntry(Entry(Tambon, "กกก")) && IsListedEntry(Entry(Tambon, "ยยย")) && IsListedEntry(Entry(Tambon, "ฑฑฑ"))
    ensures IsListedEntry(Entry(Tambon, "ฤฤฤ")) && IsListedEntry(Entry(Tambon, "ปปป")) && IsListedEntry(Entry(Tambon, "สสส"))
    ensures IsListedEntry(Entry(Tambon, "ฮฮฮ"))
  {
    FirstClauseWords();
    LaterClauseWords();
  }

  lemma FirstClauseWords()
    ensures IsListedEntry(Entry(Tambon, "อออ")) && IsListedEntry(Entry(Tambon, "ขขข"))
    ensures IsListedEntry(Entry(Tambon, "จจจ")) && IsListedEntry(Entry(Tambon, "กกก"))
  {
    WordEntry(Tambon, "อออ");
    WordEntry(Tambon, "ขขข");
    WordEntry(Tambon, "จจจ");
    WordEntry(Tambon, "กกก");
  }

  lemma LaterClauseWords()
    ensures IsListedEntry(Entry(Tambon, "ยยย")) && IsListedEntry(Entry(Tambon, "ฑฑฑ")) && IsListedEntry(Entry(Tambon, "ฤฤฤ"))
    ensures IsListedEntry(Entry(Tambon, "ปปป")) && IsListedEntry(Entry(Tambon, "สสส")) && IsListedEntry(Entry(Tambon, "ฮฮฮ"))
  {
    WordEntry(Tambon, "ยยย");
    WordEntry(Tambon, "ฑฑฑ");
    WordEntry(Tambon, "ฤฤฤ");
    WordEntry(Tambon, "ปปป");
    WordEntry(Tambon, "สสส");
    WordEntry(Tambon, "ฮฮฮ");
  }

  /**
   * Three clause bodies after an annotation, a space, "ยกเว้น" and spaces,
   * each after a dash and a space, the first two followed by an annotation
   * between spaces: the merge of their maps.
   */
  lemma ThreeNotedBodies(cell: string, before: string, gap: string, lead: string,
                         d1: string, b1: string, l1: string, n1: string, r1: string,
                         d2: string, b2: string, l2: string, n2: string, r2: string, d3: string, b3: string)
    requires NoiseLength(before) == |before| && AllSpace(gap) && AllSpace(lead)
    requires IsDashLead(d1) && IsDashLead(d2) && IsDashLead(d3)
    requires IsClauseBody(b1) && IsClauseBody(b2) && IsClauseBody(b3)
    requires AllSpace(l1) && AllSpace(r1) && AllSpace(l2) && AllSpace(r2)
    requires NoiseLength(n1) == |n1| && NoiseLength(n2) == |n2|
    requires cell == before + gap + ExclusionMarker + lead + (d1 + b1 + l1 + n1 + r1) + (d2 + b2 + l2 + n2 + r2) + (d3 + b3)
    ensures ExtractExceptionalZips(cell) == ParseSingleClause(b1) + ParseSingleClause(b2) + ParseSingleClause(b3)
  {
    var c1, c2 := SubClause(d1[0], b1, l1, n1, r1), SubClause(d2[0], b2, l2, n2, r2);
    var c3 := SubClause(d3[0], b3, [], [], []);
    PaddedSubClause(d3[0], b3, []);
    assert d1 == [d1[0], ' '] && d2 == [d2[0], ' '] && d3 == [d3[0], ' '];
    ThreeNotedTexts(before + gap + ExclusionMarker + lead, d1[0], b1, l1, n1, r1, d2[0], b2, l2, n2, r2, d3[0], b3);
    ThreeClauseCell(cell, before, gap, lead, c1, c2, c3);
  }

  /** Three sub-clauses written out after a prefix. */
  lemma ThreeNotedTexts(x: string, d1: char, b1: string, l1: string, n1: string, r1: string,
                        d2: char, b2: string, l2: string, n2: string, r2: string, d3: char, b3: string)
    ensures x + ([d1, ' '] + b1 + l1 + n1 + r1) + ([d2, ' '] + b2 + l2 + n2 + r2) + ([d3, ' '] + b3)
            == x + SubText(SubClause(d1, b1, l1, n1, r1)) + SubText(SubClause(d2, b2, l2, n2, r2)) + SubText(SubClause(d3, b3, [], [], []))
  { }

  /** A word without a designator, " ใช้รหัส " and a code: a clause body that gives no name a code. */
  lemma UndesignatedBody(w: string, code: string)
    requires IsListedEntry(Entry([], w)) && IsFiveDigits(code)
    ensures var b := w + " ใช้รหัส " + code;
            IsClauseBody(b) && ParseSingleClause(b) == map[]
  {
    var e := Entry([], w);
    assert EntryText(e) == w;
    OneListedBody(e, code);
    NamesOfCons(e, []);
    assert NamesOf([e]) == [];
  }

  /** Characters of the Thai block. */
  predicate AllThai(s: string) {
    forall k :: 0 <= k < |s| ==> 'ก' <= s[k] <= '๙'
  }

  /**
   * A word, " ใช้รหัส ", a code, a space and a parenthesised word that is not
   * an annotation: a clause body, and since it does not end in the code it
   * gives no name a code.
   */
  lemma NotedCodeBody(w: string, code: string, inner: string)
    requires w != [] && AllThai(w) && inner != [] && AllThai(inner) && inner[0] != 'ไ' && IsFiveDigits(code)
    ensures var b := w + " ใช้รหัส " + code + " " + ("(" + inner + ")");
            IsClauseBody(b) && ParseSingleClause(b) == map[]
  {
    var front := w + " ใช้รหัส " + code + " ";
    var note := "(" + inner + ")";
    var b := front + note;
    FrontPlain(w, code);
    assert NoOpener(note) && DashFree(note) by { ParenthesisedThai(inner); }
    NoParenNoOpener(front);
    NoOpenerAppend(front, note);
    DashFreeAppend(front, note);
    DashFreeNoSeparator(b);
    assert b[0] == w[0];
    assert b[|b| - 1] == ')';
    ParenthesisTailNoCode(b);
  }

  /** Thai text, " ใช้รหัส ", a code and a space hold no "(" and no dash. */
  lemma FrontPlain(w: string, code: string)
    requires AllThai(w) && IsFiveDigits(code)
    ensures var front := w + " ใช้รหัส " + code + " ";
            '(' !in front && DashFree(front)
  {
    var front := w + " ใช้รหัส " + code + " ";
    forall c | c in front ensures c != '(' && !IsDash(c) {
      if c in w {
        var k :| 0 <= k < |w| && w[k] == c;
      } else if c in code {
        var k :| 0 <= k < |code| && code[k] == c;
        assert IsDecimalDigit(code[k]);
      }
    }
  }

  /** A parenthesised Thai word opens no annotation when it does not start with "ไ", and holds no dash. */
  lemma ParenthesisedThai(inner: string)
    requires inner != [] && AllThai(inner) && inner[0] != 'ไ'
    ensures var note := "(" + inner + ")";
            NoOpener(note) && DashFree(note)
  {
    var note := "(" + inner + ")";
    forall i | 0 <= i < |note| ensures (i == 0 || note[i] != '(') && !IsDash(note[i]) {
      if 0 < i < |note| - 1 {
        assert note[i] == inner[i - 1];
      }
    }
    assert note[1] == inner[0];
    forall c | c in note ensures !IsDash(c) {
      var i :| 0 <= i < |note| && note[i] == c;
    }
  }

  lemma DashFreeAppend(a: string, b: string)
    requires DashFree(a) && DashFree(b)
    ensures DashFree(a + b)
  { }

  /**
   * An annotation, then "ยกเว้น" and three sub-clauses after "− ": two names
   * after "ตำบล" with a code and an annotation, one undesignated word with a
   * code and an annotation, and one word with a code and a parenthesised
   * word. Only the two names get a code.
   */
  lemma NotedTambonClauses(cell: string, place: string, n1: string, g: string, n2: string, code1: string, place1: string,
                           w2: string, code2: string, place2: string, w3: string, code3: string, inner: string)
    requires place != [] && AllThai(place) && place1 != [] && AllThai(place1) && place2 != [] && AllThai(place2)
    requires IsListedEntry(Entry(Tambon, n1)) && IsListedEntry(Entry(Tambon, n2)) && g != [] && IsConnective(g)
    requires IsListedEntry(Entry([], w2))
    requires w3 != [] && AllThai(w3) && inner != [] && AllThai(inner) && inner[0] != 'ไ'
    requires IsFiveDigits(code1) && IsFiveDigits(code2) && IsFiveDigits(code3)
    requires cell == "(ไปรษณีย์" + place + ")" + " " + "ยกเว้น" + "  "
                     + ("\U{2212} " + (("ตำบล" + n1) + g + ("ตำบล" + n2) + " ใช้รหัส " + code1) + " " + ("(ไปรษณีย์" + place1 + ")") + "  ")
                     + ("\U{2212} " + (w2 + " ใช้รหัส " + code2) + " " + ("(ไปรษณีย์" + place2 + ")") + "  ")
                     + ("\U{2212} " + (w3 + " ใช้รหัส " + code3 + " " + ("(" + inner + ")")))
    ensures ExtractExceptionalZips(cell) == map[n1 := code1, n2 := code1]
  {
    var b1 := ("ตำบล" + n1) + g + ("ตำบล" + n2) + " ใช้รหัส " + code1;
    var b2 := w2 + " ใช้รหัส " + code2;
    var b3 := w3 + " ใช้รหัส " + code3 + " " + ("(" + inner + ")");
    TambonTwoBody(n1, g, n2, code1);
    UndesignatedBody(w2, code2);
    NotedCodeBody(w3, code3, inner);
    ThaiNote(place);
    ThaiNote(place1);
    ThaiNote(place2);
    Pads();
    calc {
      ExtractExceptionalZips(cell);
      { ThreeNotedBodies(cell, "(ไปรษณีย์" + place + ")", " ", "  ", "\U{2212} ", b1, " ", "(ไปรษณีย์" + place1 + ")", "  ",
                         "\U{2212} ", b2, " ", "(ไปรษณีย์" + place2 + ")", "  ", "\U{2212} ", b3); }
      ParseSingleClause(b1) + ParseSingleClause(b2) + ParseSingleClause(b3);
      map[n1 := code1, n2 := code1] + map[] + map[];
      { NoneAdded(map[n1 := code1, n2 := code1]); }
      map[n1 := code1, n2 := code1];
    }
  }

  /** A post-office annotation around a Thai place name is deleted whole. */
  lemma ThaiNote(place: string)
    requires place != [] && AllThai(place)
    ensures NoiseLength("(ไปรษณีย์" + place + ")") == |"(ไปรษณีย์" + place + ")"|
  {
    ThaiAnnotation(place);
  }

  /**
   * "(ไปรษณีย์ขอนแก่น) ยกเว้น  − ตำบลท่าพระและตำบลดอนหัน ใช้รหัส 40260
   * (ไปรษณีย์ท่าพระขอนแก่น)  − ภายในมหาวิทยาลัยขอนแก่น ใช้รหัส 40002
   * (ไปรษณีย์มหาวิทยาลัยขอนแก่น)  − ศูนย์ไปรษณีย์ขอนแก่น ใช้รหัส 40010
   * (ศูนย์ไปรษณีย์ขอนแก่น)": only the two names of the first clause get a code.
   */
  lemma KhonKaenClauses(cell: string)
    requires cell == "(ไปรษณีย์" + "ขอนแก่น" + ")" + " " + "ยกเว้น" + "  "
                     + ("\U{2212} " + (("ตำบล" + "ท่าพระ") + "และ" + ("ตำบล" + "ดอนหัน") + " ใช้รหัส " + "40260") + " "
                        + ("(ไปรษณีย์" + "ท่าพระขอนแก่น" + ")") + "  ")
                     + ("\U{2212} " + ("ภายในมหาวิทยาลัยขอนแก่น" + " ใช้รหัส " + "40002") + " "
                        + ("(ไปรษณีย์" + "มหาวิทยาลัยขอนแก่น" + ")") + "  ")
                     + ("\U{2212} " + ("ศูนย์ไปรษณีย์ขอนแก่น" + " ใช้รหัส " + "40010" + " " + ("(" + "ศูนย์ไปรษณีย์ขอนแก่น" + ")")))
    ensures ExtractExceptionalZips(cell) == map["ท่าพระ" := "40260", "ดอนหัน" := "40260"]
  {
    KhonKaenWords();
    assert IsConnective(Conjunction) by { assert Conjunction[3..] == []; }
    NotedTambonClauses(cell, "ขอนแก่น", "ท่าพระ", Conjunction, "ดอนหัน", "40260", "ท่าพระขอนแก่น",
                       "ภายในมหาวิทยาลัยขอนแก่น", "40002", "มหาวิทยาลัยขอนแก่น", "ศูนย์ไปรษณีย์ขอนแก่น", "40010", "ศูนย์ไปรษณีย์ขอนแก่น");
  }

  /** The words and place names of the Khon Kaen cell. */
  lemma KhonKaenWords()
    ensures IsListedEntry(Entry(Tambon, "ท่าพระ")) && IsListedEntry(Entry(Tambon, "ดอนหัน"))
    ensures IsListedEntry(Entry([], "ภายในมหาวิทยาลัยขอนแก่น"))
    ensures AllThai("ขอนแก่น") && AllThai("ท่าพระขอนแก่น") && AllThai("มหาวิทยาลัยขอนแก่น") && AllThai("ศูนย์ไปรษณีย์ขอนแก่น")
  {
    TambonWords();
    UniversityWord();
    KhonKaenPlaces();
  }

  lemma TambonWords()
    ensures IsListedEntry(Entry(Tambon, "ท่าพระ")) && IsListedEntry(Entry(Tambon, "ดอนหัน"))
  {
    WordEntry(Tambon, "ท่าพระ");
    WordEntry(Tambon, "ดอนหัน");
  }

  lemma KhonKaenPlaces()
    ensures AllThai("ขอนแก่น") && AllThai("ท่าพระขอนแก่น") && AllThai("มหาวิทยาลัยขอนแก่น") && AllThai("ศูนย์ไปรษณีย์ขอนแก่น")
  {
    ThaiWord("ขอนแก่น");
    ThaiWord("ท่าพระขอนแก่น");
    ThaiWord("มหาวิทยาลัยขอนแก่น");
    ThaiWord("ศูนย์ไปรษณีย์ขอนแก่น");
  }

  lemma UniversityWord()
    ensures IsListedEntry(Entry([], "ภายในมหาวิทยาลัยขอนแก่น"))
  {
    WordEntry([], "ภายในมหาวิทยาลัยขอนแก่น");
  }

  lemma ThaiWord(s: string)
    requires forall c :: c in s ==> 'ก' <= c <= '๙'
    ensures AllThai(s)
  {
    forall k | 0 <= k < |s| ensures 'ก' <= s[k] <= '๙' { assert s[k] in s; }
  }

  /**
   * "ยกเว้น " + a word, " ใช้รหัส ", a code, a space and a parenthesised word
   * that is not a post-office annotation: the parenthesis survives the noise
   * removal, so the code is not at the end and no name gets one.
   */
  lemma ParenthesisedTailCell(w: string, code: string, inner: string)
    requires w != [] && AllThai(w) && inner != [] && AllThai(inner) && inner[0] != 'ไ' && IsFiveDigits(code)
    ensures ExtractExceptionalZips(ExclusionMarker + " " + (w + " ใช้รหัส " + code + " " + ("(" + inner + ")"))) == map[]
  {
    var b := w + " ใช้รหัส " + code + " " + ("(" + inner + ")");
    NotedCodeBody(w, code, inner);
    MarkedBodyData(b);
  }

  /** A clause body right after "ยกเว้น " is left alone by the cleaning and is the clause data. */
  lemma MarkedBodyData(b: string)
    requires IsClauseBody(b)
    ensures ClauseData(ExclusionMarker + " " + b) == Some(b)
  {
    var cell := ExclusionMarker + " " + b;
    NoParenNoOpener(ExclusionMarker + " ");
    NoOpenerAppend(ExclusionMarker + " ", b);
    assert cell[|cell| - 1] == b[|b| - 1];
    OpenerFreeClean(cell);
    StripAfterMarker(b);
    ClauseDataOf(cell, cell, b);
  }

  /** Trimmed text that opens no annotation is its own cleaned form. */
  lemma OpenerFreeClean(s: string)
    requires NoOpener(s) && s != [] && !IsSpace(s[0]) && !IsSpace(s[|s| - 1])
    ensures CleanClause(s) == s
  {
    OpenerFreeKept(s, []);
    assert s + [] == s;
  }

  /**
   * "ยกเว้น ศูนย์ไปรษณีย์หลักสี่ ใช้รหัส 10010 (ศูนย์ไปรษณีย์หลักสี่)": a post
   * office is named instead of a subdistrict, so the cell gives no exception.
   */
  lemma PostOfficeNamedCell(cell: string)
    requires cell == ExclusionMarker + " " + ("ศูนย์ไปรษณีย์หลักสี่" + " ใช้รหัส " + "10010" + " " + ("(" + "ศูนย์ไปรษณีย์หลักสี่" + ")"))
    ensures ExtractExceptionalZips(cell) == map[]
  {
    ThaiWord("ศูนย์ไปรษณีย์หลักสี่");
    ParenthesisedTailCell("ศูนย์ไปรษณีย์หลักสี่", "10010", "ศูนย์ไปรษณีย์หลักสี่");
  }
}
