/**
 * The parser of the free-text "notes" cell of the Thai postal-code table
 * (builder/build.py): a cell such as
 *   "ยกเว้น ตำบลอออและตำบลขขข ใช้รหัส 12345"
 * ("except subdistricts อออ and ขขข, which use code 12345") becomes the
 * exception map {"อออ": "12345", "ขขข": "12345"}.
 */
module ExceptionClauses {
  import opened Strings
  import opened Wrappers

  /** "ยกเว้น" ("except"): six code points. */
  const ExclusionMarker: string := "ยกเว้น"
  /** "ใช้รหัส " ("uses code") and the one space before the code: eight code points. */
  const CodeLead: string := "ใช้รหัส "
  /** "และ" ("and"). */
  const Conjunction: string := "และ"
  /** The start of a post-office annotation, "(ไปรษณีย์": nine code points. */
  const PostOfficeOpen: string := "(ไปรษณีย์"
  /** Subdistrict designators: "ตำบล" (province term) and "แขวง" (Bangkok term), four code points each. */
  const Tambon: string := "ตำบล"
  const Khwaeng: string := "แขวง"

  /** Subdistrict name to five-digit postal code. */
  type ExceptionMap = map<string, string>

  predicate IsFiveDigits(code: string) {
    |code| == 5 && forall i :: 0 <= i < 5 ==> IsDecimalDigit(code[i])
  }

  /** A key the parser may produce: non-empty, no whitespace, no "และ". */
  predicate IsCleanName(name: string) {
    name != [] && NoSpace(name) && !Contains(name, Conjunction)
  }

  /** Every key a clean name, every value five digits. */
  predicate CleanMap(m: ExceptionMap) {
    forall k :: k in m ==> IsCleanName(k) && IsFiveDigits(m[k])
  }

  predicate HasDesignator(s: string) {
    StartsWith(s, Tambon) || StartsWith(s, Khwaeng)
  }

  // ---------------------------------------------------------------------------
  // Name normaliser: extract_subdistrict_name, re.match(r"(ตำบล|แขวง)(.+)", s)[2]
  // ---------------------------------------------------------------------------

  /**
   * The name after a leading "ตำบล" or "แขวง", up to the first line break
   * (`.` does not match a newline); "" when there is no designator or nothing
   * follows it on the same line.
   */
  function ExtractSubdistrictName(s: string): (r: string)
    ensures r != [] <==> HasDesignator(s) && |s| > 4 && s[4] != '\n'
    ensures r != [] ==> OccursAt(s, r, 4) && '\n' !in r && (4 + |r| == |s| || s[4 + |r|] == '\n')
  {
    if HasDesignator(s) then
      var rest := s[4..];
      rest[..IndexOf(rest, '\n')]
    else []
  }

  /** A one-line token that carries a designator loses exactly the designator. */
  lemma DesignatedNameRoundTrip(name: string)
    requires name != [] && '\n' !in name
    ensures ExtractSubdistrictName(Tambon + name) == name
    ensures ExtractSubdistrictName(Khwaeng + name) == name
  {
    assert (Tambon + name)[4..] == name;
    assert (Khwaeng + name)[4..] == name;
    assert StartsWith(Tambon + name, Tambon);
    assert StartsWith(Khwaeng + name, Khwaeng);
  }

  // ---------------------------------------------------------------------------
  // Noise stripper: re.sub(r"\(ไปรษณีย์[^\)]+\)", "", s)
  // ---------------------------------------------------------------------------

  /**
   * The length of the post-office annotation that starts at the very
   * beginning of `s`, or 0 when none does: "(ไปรษณีย์", at least one
   * character, and everything up to the first ")".
   */
  function NoiseLength(s: string): (n: nat)
    ensures n > 0 <==> StartsWith(s, PostOfficeOpen) && |s| > 9 && s[9] != ')' && ')' in s[10..]
    ensures n > 0 ==> 10 < n <= |s| && s[n - 1] == ')' && ')' !in s[9..n - 1]
  {
    if StartsWith(s, PostOfficeOpen) then
      var k := 9 + IndexOf(s[9..], ')');
      if 9 < k < |s| then
        assert s[10..] == s[9..][1..];
        k + 1
      else
        assert k == 9 || k == |s|;
        assert k == |s| && |s| > 9 ==> ')' !in s[10..] by {
          if k == |s| && |s| > 9 {
            forall j | 10 <= j < |s| ensures s[j] != ')' { assert s[9..][j - 9] == s[j]; }
          }
        }
        0
    else 0
  }

  /**
   * Every post-office annotation deleted in one left-to-right pass, as
   * `re.sub` does; the scan resumes after each deleted annotation.
   */
  function RemovePostOfficeNoise(s: string): (r: string)
    ensures |r| <= |s|
    decreases |s|
  {
    if s == [] then []
    else
      var n := NoiseLength(s);
      if n > 0 then
        RemovePostOfficeNoise(s[n..])
      else
        [s[0]] + RemovePostOfficeNoise(s[1..])
  }

  /** Text without an annotation start passes through unchanged. */
  lemma {:induction false} NoNoiseUnchanged(s: string)
    requires !Contains(s, PostOfficeOpen)
    ensures RemovePostOfficeNoise(s) == s
    decreases |s|
  {
    if s != [] {
      assert !OccursAt(s, PostOfficeOpen, 0);
      assert NoiseLength(s) == 0;
      assert !Contains(s[1..], PostOfficeOpen) by {
        forall i: nat | i <= |s| - 1 ensures !OccursAt(s[1..], PostOfficeOpen, i) {
          assert !OccursAt(s, PostOfficeOpen, i + 1);
          if i + 9 <= |s| - 1 { assert s[1..][i..i + 9] == s[i + 1..i + 1 + 9]; }
        }
      }
      NoNoiseUnchanged(s[1..]);
    }
  }

  /** An annotation of one character, "(ไปรษณีย์" + c + ")", is deleted whole. */
  lemma AnnotationOfOne(c: char, rest: string)
    requires c != ')'
    ensures NoiseLength(PostOfficeOpen + [c, ')'] + rest) == 11
  {
    var s := PostOfficeOpen + [c, ')'] + rest;
    assert s[..9] == PostOfficeOpen;
    assert s[9] == c && s[10] == ')';
    assert IndexOf(s[9..], ')') == 1;
  }

  /** The annotation start missing its parenthesis holds no annotation start. */
  lemma NoOpenInTail(b: char)
    ensures !Contains((PostOfficeOpen + [b, ')'])[1..], PostOfficeOpen)
  {
    var tail := (PostOfficeOpen + [b, ')'])[1..];
    forall i: nat | i <= |tail| ensures !OccursAt(tail, PostOfficeOpen, i) {
      if i + 9 <= |tail| { assert tail[i] != '('; }
    }
  }

  /** A character that does not open an annotation is kept, and the scan moves on by one. */
  lemma KeepsFirst(s: string)
    requires s != [] && NoiseLength(s) == 0
    ensures RemovePostOfficeNoise(s) == [s[0]] + RemovePostOfficeNoise(s[1..])
  {
  }

  /** An annotation at the start is dropped, and the scan resumes after it. */
  lemma DropsLeading(s: string)
    requires NoiseLength(s) > 0
    ensures RemovePostOfficeNoise(s) == RemovePostOfficeNoise(s[NoiseLength(s)..])
  {
  }

  /** A lone one-character annotation is deleted. */
  lemma LoneAnnotationDeleted(b: char)
    requires b != ')'
    ensures RemovePostOfficeNoise(PostOfficeOpen + [b, ')']) == []
  {
    AnnotationOfOne(b, []);
    assert (PostOfficeOpen + [b, ')'] + [])[11..] == [];
  }

  /** An annotation nested in an unclosed parenthesis: only the inner one is deleted. */
  lemma InnerAnnotationDeleted(a: char, tail: string)
    requires a != ')' && !Contains(tail, PostOfficeOpen)
    ensures RemovePostOfficeNoise(['('] + (PostOfficeOpen + [a, ')'] + tail)) == ['('] + tail
  {
    var inner := PostOfficeOpen + [a, ')'] + tail;
    var whole := ['('] + inner;
    assert !StartsWith(whole, PostOfficeOpen) by { assert whole[1] != PostOfficeOpen[1]; }
    assert whole[1..] == inner;
    KeepsFirst(whole);
    AnnotationOfOne(a, tail);
    DropsLeading(inner);
    assert inner[11..] == tail;
    NoNoiseUnchanged(tail);
  }

  /**
   * One pass is not idempotent: deleting an inner annotation can expose an
   * outer one, which a second pass then deletes. For instance, with `a` = "ก"
   * and `b` = "ข", "((ไปรษณีย์ก)ไปรษณีย์ข)" becomes "(ไปรษณีย์ข)", which
   * becomes "".
   */
  lemma NoiseRemovalNotIdempotent(a: char, b: char)
    requires a != ')' && b != ')'
    ensures var outer := PostOfficeOpen + [b, ')'];
            var whole := ['('] + (PostOfficeOpen + [a, ')'] + outer[1..]);
            RemovePostOfficeNoise(whole) == outer && RemovePostOfficeNoise(outer) == []
  {
    var outer := PostOfficeOpen + [b, ')'];
    var tail := outer[1..];
    NoOpenInTail(b);
    InnerAnnotationDeleted(a, tail);
    assert outer == [outer[0]] + tail && outer[0] == '(';
    LoneAnnotationDeleted(b);
  }

  // ---------------------------------------------------------------------------
  // Clause splitter: re.split(r"(−|-|–) ", s)
  // ---------------------------------------------------------------------------

  /** The three dash glyphs: U+2212 MINUS SIGN, U+002D HYPHEN-MINUS, U+2013 EN DASH. */
  predicate IsDash(c: char) {
    c == '\U{2212}' || c == '-' || c == '\U{2013}'
  }

  /** `"− " in s or "- " in s or "– " in s` */
  predicate HasDashSeparator(s: string) {
    exists i | 0 <= i < |s| - 1 :: DashSeparatorAt(s, i)
  }

  /** A dash glyph at `i` followed by a space. */
  predicate DashSeparatorAt(s: string, i: nat)
    requires i < |s| - 1
  {
    IsDash(s[i]) && s[i + 1] == ' '
  }

  /** `HasDashSeparator` seen one character further on. */
  lemma DashSeparatorShift(s: string)
    requires |s| >= 2 && !(IsDash(s[0]) && s[1] == ' ')
    ensures HasDashSeparator(s) <==> HasDashSeparator(s[1..])
  {
    if HasDashSeparator(s) {
      var i :| 0 <= i < |s| - 1 && DashSeparatorAt(s, i);
      assert s[1..][i - 1] == s[i] && s[1..][i] == s[i + 1];
      assert DashSeparatorAt(s[1..], i - 1);
    }
    if HasDashSeparator(s[1..]) {
      var i :| 0 <= i < |s| - 2 && DashSeparatorAt(s[1..], i);
      assert s[i + 1] == s[1..][i] && s[i + 2] == s[1..][i + 1];
      assert DashSeparatorAt(s, i + 1);
    }
  }

  /** Pieces as `re.split` returns them: separator-free text, captured dash, text, ... */
  predicate DashPieces(r: seq<string>) {
    && |r| % 2 == 1
    && (forall k :: 0 <= k < |r| && k % 2 == 1 ==> |r[k]| == 1 && IsDash(r[k][0]))
    && (forall k :: 0 <= k < |r| && k % 2 == 0 ==> !HasDashSeparator(r[k]))
  }

  /** Every piece is at most `bound` long. */
  predicate PiecesWithin(r: seq<string>, bound: int) {
    forall p :: p in r ==> |p| <= bound
  }

  /**
   * The text `re.split` on a dash and one space started from: the pieces one
   * after another, the space the split consumed restored after each
   * captured dash.
   */
  function DashRejoin(r: seq<string>): string
  {
    if |r| < 2 then Concat(r) else r[0] + r[1] + " " + DashRejoin(r[2..])
  }

  /** An empty piece and a dash, then pieces that rejoin to the rest, rejoin to the text. */
  lemma DashRejoinAfterSeparator(s: string, t: seq<string>)
    requires |s| >= 2 && s[1] == ' ' && DashRejoin(t) == s[2..]
    ensures DashRejoin(["", [s[0]]] + t) == s
  {
    assert (["", [s[0]]] + t)[2..] == t;
    assert s == "" + [s[0]] + " " + s[2..];
  }

  /** The first character put in front of the first piece of the rest rejoins to the text. */
  lemma {:induction false} DashRejoinAfterHead(s: string, t: seq<string>)
    requires s != [] && t != [] && DashRejoin(t) == s[1..]
    ensures DashRejoin([[s[0]] + t[0]] + t[1..]) == s
  {
    var r := [[s[0]] + t[0]] + t[1..];
    if |t| >= 2 {
      assert r[1] == t[1] && r[2..] == t[2..];
    }
    assert s == [s[0]] + s[1..];
  }

  /**
   * `re.split` on a dash and one space, with the dash captured: the pieces
   * between separators at the even positions and each separator's dash, as a
   * one-character string, at the odd positions.
   */
  function SplitOnDash(s: string): (r: seq<string>)
    ensures DashPieces(r) && StartsWith(s, r[0])
    ensures !HasDashSeparator(s) ==> r == [s]
    ensures HasDashSeparator(s) && s[|s| - 1] != ' ' ==> PiecesWithin(r, |s| - 2)
    decreases |s|
  {
    if |s| < 2 then [s]
    else if IsDash(s[0]) && s[1] == ' ' then
      var t := SplitOnDash(s[2..]);
      assert HasDashSeparator(s) by { assert DashSeparatorAt(s, 0); }
      assert s[|s| - 1] != ' ' ==> PiecesWithin(t, |s| - 2) by {
        if s[|s| - 1] != ' ' && !HasDashSeparator(s[2..]) { assert t == [s[2..]]; }
      }
      assert s[|s| - 1] != ' ' ==> |s| >= 3;
      assert OccursAt(s, "", 0);
      DashPiecesWithPair("", [s[0]], t);
      ["", [s[0]]] + t
    else
      var t := SplitOnDash(s[1..]);
      DashSeparatorShift(s);
      SeparatorFreePrefix(s, t[0]);
      var first := [s[0]] + t[0];
      assert first == s[..|t[0]| + 1];
      assert !HasDashSeparator(s) ==> [first] + t[1..] == [s] by {
        if !HasDashSeparator(s) { assert t == [s[1..]]; assert [s[0]] + s[1..] == s; }
      }
      DashPiecesWithNewHead(first, t);
      [first] + t[1..]
  }

  /** The pieces rejoin, each consumed space restored after its dash, to the text that was split. */
  lemma {:induction false} SplitOnDashRejoins(s: string)
    ensures DashRejoin(SplitOnDash(s)) == s
    decreases |s|
  {
    if |s| < 2 {
    } else if IsDash(s[0]) && s[1] == ' ' {
      SplitOnDashRejoins(s[2..]);
      DashRejoinAfterSeparator(s, SplitOnDash(s[2..]));
    } else {
      SplitOnDashRejoins(s[1..]);
      DashRejoinAfterHead(s, SplitOnDash(s[1..]));
    }
  }

  lemma DashPiecesWithPair(a: string, b: string, t: seq<string>)
    requires !HasDashSeparator(a) && |b| == 1 && IsDash(b[0]) && DashPieces(t)
    ensures DashPieces([a, b] + t)
    ensures forall bound :: PiecesWithin(t, bound) && |a| <= bound && 1 <= bound ==> PiecesWithin([a, b] + t, bound)
  {
    var r := [a, b] + t;
    forall k | 2 <= k < |r| ensures r[k] == t[k - 2] { }
  }

  lemma DashPiecesWithNewHead(first: string, t: seq<string>)
    requires !HasDashSeparator(first) && DashPieces(t) && |first| == |t[0]| + 1
    ensures DashPieces([first] + t[1..])
    ensures forall bound :: PiecesWithin(t, bound - 1) ==> PiecesWithin([first] + t[1..], bound)
  {
    var r := [first] + t[1..];
    forall k | 1 <= k < |r| ensures r[k] == t[k] { }
  }

  lemma SeparatorFreePrefix(s: string, p: string)
    requires |s| >= 2 && !(IsDash(s[0]) && s[1] == ' ')
    requires !HasDashSeparator(p)
    requires StartsWith(s[1..], p)
    ensures !HasDashSeparator([s[0]] + p)
  {
    var q := [s[0]] + p;
    forall i | 0 <= i < |q| - 1 ensures !DashSeparatorAt(q, i) {
      if i > 0 {
        assert q[i] == p[i - 1] && q[i + 1] == p[i];
        assert !DashSeparatorAt(p, i - 1);
      } else {
        assert q[1] == p[0] == s[1..][0] == s[1];
      }
    }
  }

  /**
   * `[f"ยกเว้น{row}" for row in pieces if row.strip() != ""]`: every piece that
   * is not blank, the marker put back in front of it.
   */
  function ClauseRows(pieces: seq<string>): (rows: seq<string>)
    ensures forall row :: row in rows ==> StartsWith(row, ExclusionMarker) && row[6..] in pieces && Strip(row[6..]) != []
  {
    if pieces == [] then []
    else
      var rest := ClauseRows(pieces[1..]);
      assert forall p :: p in pieces[1..] ==> p in pieces;
      if Strip(pieces[0]) != [] then
        var row := ExclusionMarker + pieces[0];
        assert row[..6] == ExclusionMarker && row[6..] == pieces[0];
        [row] + rest
      else rest
  }

  /** One piece gives one row, the marker in front, when it is not blank, and none when it is. */
  lemma ClauseRowsOfOne(p: string)
    ensures Strip(p) != [] ==> ClauseRows([p]) == [ExclusionMarker + p]
    ensures Strip(p) == [] ==> ClauseRows([p]) == []
  {
    assert [p][1..] == [];
  }

  /** The rows of two runs of pieces are the rows of the first run, then those of the second. */
  lemma {:induction false} ClauseRowsAppend(a: seq<string>, b: seq<string>)
    ensures ClauseRows(a + b) == ClauseRows(a) + ClauseRows(b)
    decreases |a|
  {
    if a == [] {
      assert a + b == b;
    } else {
      assert (a + b)[0] == a[0] && (a + b)[1..] == a[1..] + b;
      ClauseRowsAppend(a[1..], b);
    }
  }

  /**
   * The split cuts at the leftmost separator: a separator-free piece, a dash
   * and a space, then any text, split as the piece, the dash, and the split
   * of the text.
   */
  lemma {:induction false} SplitOnDashAfterPiece(x: string, d: char, y: string)
    requires !HasDashSeparator(x) && IsDash(d)
    ensures SplitOnDash(x + [d, ' '] + y) == [x, [d]] + SplitOnDash(y)
    decreases |x|
  {
    if x == [] {
      SplitAtLeadingDash(d, y);
    } else {
      PieceHeadNotSeparator(x, d, y);
      SplitOnDashAfterPiece(x[1..], d, y);
      AfterPieceStep(x, d, y, SplitOnDash(y));
    }
  }

  /** One more character in front of the piece joins the piece. */
  lemma AfterPieceStep(x: string, d: char, y: string, tail: seq<string>)
    requires x != [] && !HasDashSeparator(x) && IsDash(d)
    requires SplitOnDash(x[1..] + [d, ' '] + y) == [x[1..], [d]] + tail
    ensures SplitOnDash(x + [d, ' '] + y) == [x, [d]] + tail
  {
    var s := x + [d, ' '] + y;
    var rest := [[d]] + tail;
    PieceHeadNotSeparator(x, d, y);
    assert s[1..] == x[1..] + [d, ' '] + y && s[0] == x[0];
    PairAsCons(x[1..], [d], tail);
    StepOf(s, x, rest);
    PairAsCons(x, [d], tail);
  }

  lemma PairAsCons(a: string, b: string, tail: seq<string>)
    ensures [a, b] + tail == [a] + ([b] + tail)
  {
  }

  /** A text whose first character starts no separator splits as its rest does, that character joining the first piece. */
  lemma StepOf(s: string, x: string, rest: seq<string>)
    requires |s| >= 2 && !(IsDash(s[0]) && s[1] == ' ') && x != [] && s[0] == x[0]
    requires SplitOnDash(s[1..]) == [x[1..]] + rest
    ensures SplitOnDash(s) == [x] + rest
  {
    DashSplitStep(s);
    JoinHead(x, rest);
  }

  /** A text that starts with a separator splits into "", its dash, and the split of the rest. */
  lemma SplitAtLeadingDash(d: char, y: string)
    requires IsDash(d)
    ensures SplitOnDash([d, ' '] + y) == ["", [d]] + SplitOnDash(y)
  {
    var s := [d, ' '] + y;
    assert s[0] == d && s[1] == ' ' && s[2..] == y;
  }

  /** The first character of a separator-free piece followed by a separator starts no separator. */
  lemma PieceHeadNotSeparator(x: string, d: char, y: string)
    requires !HasDashSeparator(x) && IsDash(d) && x != []
    ensures var s := x + [d, ' '] + y; |s| >= 2 && !(IsDash(s[0]) && s[1] == ' ')
    ensures !HasDashSeparator(x[1..])
  {
    var s := x + [d, ' '] + y;
    if |x| >= 2 {
      assert s[1] == x[1];
      assert !DashSeparatorAt(x, 0);
      DashSeparatorShift(x);
    } else {
      assert s[1] == d;
    }
  }

  /** Where no separator starts, the first character joins the first piece of the rest. */
  lemma DashSplitStep(s: string)
    requires |s| >= 2 && !(IsDash(s[0]) && s[1] == ' ')
    ensures SplitOnDash(s) == [[s[0]] + SplitOnDash(s[1..])[0]] + SplitOnDash(s[1..])[1..]
  {
  }

  lemma JoinHead(x: string, rest: seq<string>)
    requires x != []
    ensures [[x[0]] + ([x[1..]] + rest)[0]] + ([x[1..]] + rest)[1..] == [x] + rest
  {
    assert [x[0]] + x[1..] == x;
  }

  /**
   * The rows of a body that starts with a separator-free piece and a
   * separator: the piece's row unless it is blank, the dash's own row, then
   * the rows of the rest.
   */
  lemma DashRowsAfterPiece(x: string, d: char, y: string)
    requires !HasDashSeparator(x) && IsDash(d)
    ensures ClauseRows(SplitOnDash(x + [d, ' '] + y))
            == ClauseRows([x]) + [ExclusionMarker + [d]] + ClauseRows(SplitOnDash(y))
  {
    SplitOnDashAfterPiece(x, d, y);
    ClauseRowsOfPair(x, [d], SplitOnDash(y));
    DashRow(d);
  }

  /** The rows of two leading pieces and the rest, taken run by run. */
  lemma ClauseRowsOfPair(a: string, b: string, p: seq<string>)
    ensures ClauseRows([a, b] + p) == ClauseRows([a]) + ClauseRows([b]) + ClauseRows(p)
  {
    assert [a, b] + p == [a] + ([b] + p);
    ClauseRowsAppend([a], [b] + p);
    ClauseRowsAppend([b], p);
  }

  /** A dash on its own is not blank, so it makes a row of its own. */
  lemma DashRow(d: char)
    requires IsDash(d)
    ensures ClauseRows([[d]]) == [ExclusionMarker + [d]]
  {
    var p := [d];
    assert !IsSpace(d);
    assert p[0] == d && p[|p| - 1] == d;
    assert Strip(p) == p;
    ClauseRowsOfOne(p);
  }

  /**
   * Two separator-free, non-blank clauses joined by a dash and a space give
   * three sub-clauses: the first clause, the dash alone, and the second
   * clause, each behind the marker.
   */
  lemma SubClausesOfPair(x: string, d: char, y: string)
    requires !HasDashSeparator(x) && !HasDashSeparator(y) && IsDash(d)
    requires Strip(x) != [] && Strip(y) != [] && Trimmed(x + [d, ' '] + y)
    ensures HasDashSeparator(x + [d, ' '] + y)
    ensures SubClauses(x + [d, ' '] + y) == [ExclusionMarker + x, ExclusionMarker + [d], ExclusionMarker + y]
  {
    var data := x + [d, ' '] + y;
    assert DashSeparatorAt(data, |x|);
    DashRowsAfterPiece(x, d, y);
    var rx, rd, ry := ExclusionMarker + x, ExclusionMarker + [d], ExclusionMarker + y;
    assert ClauseRows([x]) == [rx] by { ClauseRowsOfOne(x); }
    assert ClauseRows(SplitOnDash(y)) == [ry] by {
      assert SplitOnDash(y) == [y];
      ClauseRowsOfOne(y);
    }
    assert SubClauses(data) == ClauseRows(SplitOnDash(data));
    ThreeRows(rx, rd, ry);
  }

  lemma ThreeRows(a: string, b: string, c: string)
    ensures [a] + [b] + [c] == [a, b, c]
  {
  }

  // ---------------------------------------------------------------------------
  // Union of the sub-clause maps: reduce(lambda x, a: x | a, maps, {})
  // ---------------------------------------------------------------------------

  /** The maps merged left to right; on a shared key the later map wins. */
  function MergeAll(maps: seq<ExceptionMap>): (r: ExceptionMap)
    ensures forall k :: k in r <==> exists i :: 0 <= i < |maps| && k in maps[i]
  {
    if maps == [] then map[]
    else
      var prefix := maps[..|maps| - 1];
      assert forall i :: 0 <= i < |maps| - 1 ==> prefix[i] == maps[i];
      MergeAll(prefix) + maps[|maps| - 1]
  }

  /** A key takes its value from the last map that holds it. */
  lemma {:induction false} MergeAllLastWins(maps: seq<ExceptionMap>, i: nat, k: string)
    requires i < |maps| && k in maps[i]
    requires forall j :: i < j < |maps| ==> k !in maps[j]
    ensures k in MergeAll(maps) && MergeAll(maps)[k] == maps[i][k]
  {
    var prefix := maps[..|maps| - 1];
    if i < |maps| - 1 {
      assert k !in maps[|maps| - 1];
      assert prefix[i] == maps[i];
      MergeAllLastWins(prefix, i, k);
    }
  }

  /** Every merged value is the value of that key in one of the maps. */
  lemma {:induction false} MergeAllValueFromSome(maps: seq<ExceptionMap>, k: string) returns (i: nat)
    requires k in MergeAll(maps)
    ensures i < |maps| && k in maps[i] && MergeAll(maps)[k] == maps[i][k]
  {
    var prefix := maps[..|maps| - 1];
    if k in maps[|maps| - 1] {
      i := |maps| - 1;
    } else {
      i := MergeAllValueFromSome(prefix, k);
      assert prefix[i] == maps[i];
    }
  }

  // ---------------------------------------------------------------------------
  // Single clause: re.match(r".*ใช้รหัส (\d{5})$", s) and the name list
  // ---------------------------------------------------------------------------

  predicate AllDecimalDigits(s: string) {
    forall i :: 0 <= i < |s| ==> IsDecimalDigit(s[i])
  }

  /**
   * The five digits captured by `.*ใช้รหัส (\d{5})$`: "ใช้รหัส ", then five
   * digits, at the end of the text or just before a final line break (where
   * `$` also matches), with no line break before them (`.` stops at one).
   */
  function MatchTrailingCode(s: string): (r: Option<string>)
    ensures r.Some? ==> IsFiveDigits(r.value)
    ensures r.Some? ==> |s| >= 13 && '\n' !in s[..|s| - 13] && (s[|s| - 1] != '\n' ==> EndsWith(s, CodeLead + r.value))
    ensures (|s| >= 13 && EndsWith(s[..|s| - 5], CodeLead) && AllDecimalDigits(s[|s| - 5..]) && '\n' !in s[..|s| - 13]) ==> r == Some(s[|s| - 5..])
    ensures r.Some? && |s| > 0 && s[|s| - 1] != '\n' ==> IsDecimalDigit(s[|s| - 1])
  {
    if |s| >= 13 && EndsWith(s[..|s| - 5], CodeLead) && AllDecimalDigits(s[|s| - 5..]) && '\n' !in s[..|s| - 13] then
      CodeAtEnd(s);
      Some(s[|s| - 5..])
    else if |s| >= 14 && s[|s| - 1] == '\n' && EndsWith(s[..|s| - 6], CodeLead) && AllDecimalDigits(s[|s| - 6..|s| - 1]) && '\n' !in s[..|s| - 14] then
      CodeBeforeBreak(s);
      Some(s[|s| - 6..|s| - 1])
    else None
  }

  /** "ใช้รหัส " and five digits at the very end: the text ends with both, and its last character is a digit. */
  lemma CodeAtEnd(s: string)
    requires |s| >= 13 && EndsWith(s[..|s| - 5], CodeLead) && AllDecimalDigits(s[|s| - 5..])
    ensures IsFiveDigits(s[|s| - 5..]) && EndsWith(s, CodeLead + s[|s| - 5..]) && IsDecimalDigit(s[|s| - 1])
  {
    assert s[..|s| - 5][|s| - 13..] == s[|s| - 13..|s| - 5];
    assert s[|s| - 13..] == s[|s| - 13..|s| - 5] + s[|s| - 5..];
    assert s[|s| - 5..][4] == s[|s| - 1];
  }

  /** "ใช้รหัส " and five digits before a final line break: no line break comes before the code lead either. */
  lemma CodeBeforeBreak(s: string)
    requires |s| >= 14 && EndsWith(s[..|s| - 6], CodeLead) && AllDecimalDigits(s[|s| - 6..|s| - 1]) && '\n' !in s[..|s| - 14]
    ensures IsFiveDigits(s[|s| - 6..|s| - 1]) && '\n' !in s[..|s| - 13]
  {
    assert s[..|s| - 13] == s[..|s| - 14] + [s[|s| - 14]];
    assert s[..|s| - 6][|s| - 14] == s[|s| - 14];
    assert CodeLead[0] != '\n';
  }

  /** Length of the whitespace run at the start of `s` (the `\s+` alternative). */
  function SpaceRun(s: string): (n: nat)
    ensures n <= |s| && AllSpace(s[..n])
    ensures n < |s| ==> !IsSpace(s[n])
  {
    if s != [] && IsSpace(s[0]) then
      var n := 1 + SpaceRun(s[1..]);
      assert s[..n] == [s[0]] + s[1..][..n - 1];
      n
    else 0
  }

  /** A piece between separators: no whitespace, no "และ", and taken from `s`. */
  predicate IsWordPiece(s: string, p: string) {
    NoSpace(p) && !Contains(p, Conjunction) && Contains(s, p)
  }

  /** A captured separator: a whitespace run or "และ". */
  predicate IsSeparatorPiece(p: string) {
    p == Conjunction || (p != [] && AllSpace(p))
  }

  /**
   * `re.split(r"(\s+|และ)", s)`: the pieces between separators at the even
   * positions, each separator itself (a whitespace run or "และ") at the odd
   * positions.
   */
  function SplitNameList(s: string): (r: seq<string>)
    ensures |r| % 2 == 1
    ensures StartsWith(s, r[0])
    ensures forall k :: 0 <= k < |r| && k % 2 == 0 ==> IsWordPiece(s, r[k])
    ensures forall k :: 0 <= k < |r| && k % 2 == 1 ==> IsSeparatorPiece(r[k])
    decreases |s|
  {
    if s == [] then
      assert OccursAt(s, "", 0);
      [""]
    else if IsSpace(s[0]) then
      var n := SpaceRun(s);
      var t := SplitNameList(s[n..]);
      WordPiecesOfSuffix(s, n, t);
      assert IsWordPiece(s, "") by { assert OccursAt(s, "", 0); }
      PiecesWithPair(s, "", s[..n], t);
      ["", s[..n]] + t
    else if StartsWith(s, Conjunction) then
      var t := SplitNameList(s[3..]);
      WordPiecesOfSuffix(s, 3, t);
      assert IsWordPiece(s, "") by { assert OccursAt(s, "", 0); }
      PiecesWithPair(s, "", Conjunction, t);
      ["", Conjunction] + t
    else
      var t := SplitNameList(s[1..]);
      WordPiecesOfSuffix(s, 1, t);
      var first := [s[0]] + t[0];
      assert IsWordPiece(s, first) by {
        assert first == s[..|first|];
        assert OccursAt(s, first, 0);
        NoConjunctionAfterHead(s, t[0]);
        assert NoSpace(t[0]);
      }
      PiecesWithNewHead(s, first, t);
      [first] + t[1..]
  }

  /** The pieces, separators included, concatenate back to the text that was split. */
  lemma {:induction false} SplitNameListRejoins(s: string)
    ensures Concat(SplitNameList(s)) == s
    decreases |s|
  {
    if s == [] {
    } else if IsSpace(s[0]) {
      var n := SpaceRun(s);
      SplitNameListRejoins(s[n..]);
      ConcatAfterCut(s, n, SplitNameList(s[n..]));
    } else if StartsWith(s, Conjunction) {
      SplitNameListRejoins(s[3..]);
      ConcatAfterCut(s, 3, SplitNameList(s[3..]));
    } else {
      SplitNameListRejoins(s[1..]);
      ConcatAfterHead(s, SplitNameList(s[1..]));
    }
  }

  /** Well-formed pieces of `s` (word pieces at even positions, separators at odd ones). */
  predicate WellFormedPieces(s: string, r: seq<string>) {
    && |r| % 2 == 1
    && (forall k :: 0 <= k < |r| && k % 2 == 0 ==> IsWordPiece(s, r[k]))
    && (forall k :: 0 <= k < |r| && k % 2 == 1 ==> IsSeparatorPiece(r[k]))
  }

  lemma PiecesWithPair(s: string, a: string, b: string, t: seq<string>)
    requires IsWordPiece(s, a) && IsSeparatorPiece(b)
    requires |t| % 2 == 1 && forall k :: 0 <= k < |t| && k % 2 == 0 ==> IsWordPiece(s, t[k])
    requires forall k :: 0 <= k < |t| && k % 2 == 1 ==> IsSeparatorPiece(t[k])
    ensures WellFormedPieces(s, [a, b] + t)
  {
    var r := [a, b] + t;
    forall k | 2 <= k < |r| ensures r[k] == t[k - 2] { }
  }

  lemma PiecesWithNewHead(s: string, first: string, t: seq<string>)
    requires IsWordPiece(s, first)
    requires |t| % 2 == 1 && forall k :: 0 <= k < |t| && k % 2 == 0 ==> IsWordPiece(s, t[k])
    requires forall k :: 0 <= k < |t| && k % 2 == 1 ==> IsSeparatorPiece(t[k])
    ensures WellFormedPieces(s, [first] + t[1..])
  {
    var r := [first] + t[1..];
    forall k | 1 <= k < |r| ensures r[k] == t[k] { }
  }

  lemma WordPiecesOfSuffix(s: string, n: nat, t: seq<string>)
    requires n <= |s|
    requires forall k :: 0 <= k < |t| && k % 2 == 0 ==> IsWordPiece(s[n..], t[k])
    ensures forall k :: 0 <= k < |t| && k % 2 == 0 ==> IsWordPiece(s, t[k])
  {
    forall k | 0 <= k < |t| && k % 2 == 0 ensures IsWordPiece(s, t[k]) {
      ContainsInSuffix(s, n, t[k]);
    }
  }

  lemma ContainsInSuffix(s: string, n: nat, w: string)
    requires n <= |s| && Contains(s[n..], w)
    ensures Contains(s, w)
  {
    var i: nat :| i <= |s[n..]| && OccursAt(s[n..], w, i);
    assert s[n..][i..i + |w|] == s[n + i..n + i + |w|];
    assert OccursAt(s, w, n + i);
  }

  lemma NoConjunctionAfterHead(s: string, p: string)
    requires s != [] && !StartsWith(s, Conjunction)
    requires StartsWith(s[1..], p) && !Contains(p, Conjunction)
    ensures !Contains([s[0]] + p, Conjunction)
  {
    var q := [s[0]] + p;
    forall i: nat | i <= |q| ensures !OccursAt(q, Conjunction, i) {
      if i > 0 && i + 3 <= |q| {
        assert q[i..i + 3] == p[i - 1..i - 1 + 3];
        assert !OccursAt(p, Conjunction, i - 1);
      }
    }
  }

  /** `[p for p in pieces if p.strip() != "" and p.strip() != "และ"]` */
  function NameTokens(pieces: seq<string>): (tokens: seq<string>)
    ensures forall t :: t in tokens ==> t in pieces && Strip(t) != [] && Strip(t) != Conjunction
    ensures forall p :: p in pieces && Strip(p) != [] && Strip(p) != Conjunction ==> p in tokens
  {
    if pieces == [] then []
    else
      var p := pieces[0];
      (if Strip(p) != [] && Strip(p) != Conjunction then [p] else []) + NameTokens(pieces[1..])
  }

  /** `[extract_subdistrict_name(t) for t in tokens]` */
  function SubdistrictNames(tokens: seq<string>): (names: seq<string>)
    ensures |names| == |tokens|
    ensures forall i :: 0 <= i < |tokens| ==> names[i] == ExtractSubdistrictName(tokens[i])
  {
    if tokens == [] then [] else [ExtractSubdistrictName(tokens[0])] + SubdistrictNames(tokens[1..])
  }

  /**
   * A clause without dash separators: the code at its end, given to every
   * name in the list before it that carries a designator.
   */
  function ParseSingleClause(data: string): (r: ExceptionMap)
    ensures MatchTrailingCode(data).None? ==> r == map[]
    ensures MatchTrailingCode(data).Some? ==> forall k :: k in r ==> r[k] == MatchTrailingCode(data).value
  {
    match MatchTrailingCode(data)
    case None => map[]
    case Some(code) =>
      var names := SubdistrictNames(NameTokens(SplitNameList(data[..|data| - 13])));
      map name | name in names && name != [] :: code
  }

  /** `k` is what the name normaliser cuts from one of `tokens` that starts with a designator. */
  predicate DesignatedName(tokens: seq<string>, k: string) {
    exists t :: t in tokens && HasDesignator(t) && ExtractSubdistrictName(t) == k
  }

  /**
   * The keys of a single clause: exactly the non-empty names cut from the
   * tokens before the code that start with "ตำบล" or "แขวง". A token without
   * a designator adds no key, and a clause without a code has none.
   */
  lemma ParseSingleClauseKeys(data: string, k: string)
    ensures k in ParseSingleClause(data) <==>
            MatchTrailingCode(data).Some? && k != [] && DesignatedName(NameTokens(SplitNameList(data[..|data| - 13])), k)
  {
    if MatchTrailingCode(data).Some? {
      var tokens := NameTokens(SplitNameList(data[..|data| - 13]));
      assert k in ParseSingleClause(data) <==> k in SubdistrictNames(tokens) && k != [];
      DesignatedNames(tokens, k);
    }
  }

  /** A non-empty name is cut from the tokens exactly when a designated token carries it. */
  lemma DesignatedNames(tokens: seq<string>, k: string)
    ensures k in SubdistrictNames(tokens) && k != [] <==> k != [] && DesignatedName(tokens, k)
  {
    var names := SubdistrictNames(tokens);
    if k in names && k != [] {
      var i :| 0 <= i < |names| && names[i] == k;
      assert tokens[i] in tokens && ExtractSubdistrictName(tokens[i]) == k;
    }
    if k != [] && DesignatedName(tokens, k) {
      var t :| t in tokens && HasDesignator(t) && ExtractSubdistrictName(t) == k;
      var i :| 0 <= i < |tokens| && tokens[i] == t;
      assert names[i] == k;
    }
  }

  // ---------------------------------------------------------------------------
  // The clause parser: extract_exceptional_zips
  // ---------------------------------------------------------------------------

  /** The cell with its annotations deleted and its ends trimmed. */
  function CleanClause(s: string): (t: string)
    ensures |t| <= |s|
    ensures Trimmed(t)
  {
    Strip(RemovePostOfficeNoise(s))
  }

  /**
   * `data = s[6:].strip()` once the cleaned cell is known to start with the
   * marker; `None` when it does not (the parser then yields no exception).
   */
  function ClauseData(s: string): (data: Option<string>)
    ensures data.Some? <==> StartsWith(CleanClause(s), ExclusionMarker)
    ensures data.Some? ==> |data.value| + 6 <= |s|
    ensures data.Some? ==> Trimmed(data.value)
  {
    var t := CleanClause(s);
    if StartsWith(t, ExclusionMarker) then Some(Strip(t[6..])) else None
  }

  /** The sub-clauses of a body with dash separators, each with the marker in front. */
  function SubClauses(data: string): (rows: seq<string>)
    requires HasDashSeparator(data) && Trimmed(data)
    ensures forall row :: row in rows ==> StartsWith(row, ExclusionMarker) && Strip(row[6..]) != [] && |row| <= |data| + 4
  {
    SubClausesShorter(data);
    ClauseRows(SplitOnDash(data))
  }

  /**
   * The exception map of one notes cell. Text that does not start with the
   * marker (once annotations are deleted) gives no exception; a cell with a
   * dash separator is split into sub-clauses, each parsed again with the
   * marker restored, and the results merged with later ones winning; any
   * other cell is a single clause.
   */
  function ExtractExceptionalZips(s: string): (r: ExceptionMap)
    ensures CleanMap(r)
    ensures ClauseData(s).None? ==> r == map[]
    ensures ClauseData(s).Some? && !HasDashSeparator(ClauseData(s).value) ==> r == ParseSingleClause(ClauseData(s).value)
    ensures ClauseData(s).Some? && HasDashSeparator(ClauseData(s).value) ==> r == CompoundClause(ClauseData(s).value, |s|)
    decreases |s| + 1, 0, 0
  {
    match ClauseData(s)
    case None => map[]
    case Some(data) =>
      if HasDashSeparator(data) then CompoundClause(data, |s|)
      else
        SingleClauseKeys(data);
        ParseSingleClause(data)
  }

  /**
   * A body with dash separators: the maps of its sub-clauses merged, later
   * ones winning (`reduce(lambda x, a: x | a, ..., {})`). `bound` is the
   * length of the cell the body came from.
   */
  function CompoundClause(data: string, ghost bound: nat): (r: ExceptionMap)
    requires HasDashSeparator(data) && Trimmed(data) && |data| + 6 <= bound
    ensures CleanMap(r)
    decreases bound, 1, 0
  {
    var maps := SubClauseMaps(SubClauses(data), bound);
    MergedKeysClean(maps);
    MergeAll(maps)
  }

  /** `[extract_exceptional_zips(row) for row in rows]`, for rows shorter than `bound`. */
  function SubClauseMaps(rows: seq<string>, ghost bound: nat): (maps: seq<ExceptionMap>)
    requires forall row :: row in rows ==> |row| < bound
    ensures |maps| == |rows|
    ensures forall i :: 0 <= i < |maps| ==> CleanMap(maps[i])
    decreases bound, 0, |rows|
  {
    if rows == [] then []
    else
      assert rows[0] in rows;
      var head := ExtractExceptionalZips(rows[0]);
      assert forall row :: row in rows[1..] ==> row in rows;
      var rest := SubClauseMaps(rows[1..], bound);
      CleanMapsCons(head, rest);
      [head] + rest
  }

  lemma CleanMapsCons(head: ExceptionMap, rest: seq<ExceptionMap>)
    requires CleanMap(head) && forall i :: 0 <= i < |rest| ==> CleanMap(rest[i])
    ensures forall i :: 0 <= i < |[head] + rest| ==> CleanMap(([head] + rest)[i])
  {
    forall i | 0 <= i < |[head] + rest| ensures CleanMap(([head] + rest)[i]) {
      if i > 0 {
        assert ([head] + rest)[i] == rest[i - 1];
      }
    }
  }

  /** The i-th sub-clause map is the map of the i-th sub-clause. */
  lemma {:induction false} SubClauseMapAt(rows: seq<string>, bound: nat, i: nat)
    requires forall row :: row in rows ==> |row| < bound
    requires i < |rows|
    ensures SubClauseMaps(rows, bound)[i] == ExtractExceptionalZips(rows[i])
    decreases i
  {
    if i > 0 {
      assert forall row :: row in rows[1..] ==> row in rows;
      SubClauseMapAt(rows[1..], bound, i - 1);
    }
  }

  /** Each sub-clause, marker included, is shorter than the body it came from plus the marker. */
  lemma SubClausesShorter(data: string)
    requires HasDashSeparator(data) && Trimmed(data)
    ensures forall row :: row in ClauseRows(SplitOnDash(data)) ==> |row| <= |data| + 4
  {
    var pieces := SplitOnDash(data);
    assert PiecesWithin(pieces, |data| - 2);
    forall row | row in ClauseRows(pieces) ensures |row| <= |data| + 4 {
      assert |row| == 6 + |row[6..]|;
    }
  }

  /** Merging keeps the keys and values of clean, five-digit maps clean and five-digit. */
  lemma MergedKeysClean(maps: seq<ExceptionMap>)
    requires forall i :: 0 <= i < |maps| ==> CleanMap(maps[i])
    ensures CleanMap(MergeAll(maps))
  {
    forall k | k in MergeAll(maps) ensures IsCleanName(k) && IsFiveDigits(MergeAll(maps)[k]) {
      var i := MergeAllValueFromSome(maps, k);
    }
  }

  lemma SingleClauseKeys(data: string)
    ensures CleanMap(ParseSingleClause(data))
  {
    var m := MatchTrailingCode(data);
    if m.Some? {
      var tokens := NameTokens(SplitNameList(data[..|data| - 13]));
      var names := SubdistrictNames(tokens);
      var r := ParseSingleClause(data);
      assert r == map name | name in names && name != [] :: m.value;
      TokensAreWordPieces(data[..|data| - 13]);
      forall k | k in r ensures IsCleanName(k) && IsFiveDigits(r[k]) {
        var i :| 0 <= i < |names| && names[i] == k;
        assert tokens[i] in tokens;
        NameOfWordIsClean(tokens[i]);
      }
    }
  }

  /** The tokens kept from the name list are the separator-free pieces. */
  lemma TokensAreWordPieces(s: string)
    ensures forall t :: t in NameTokens(SplitNameList(s)) ==> IsWordPiece(s, t)
  {
    var pieces := SplitNameList(s);
    var tokens := NameTokens(pieces);
    forall t | t in tokens ensures IsWordPiece(s, t) {
      var k :| 0 <= k < |pieces| && pieces[k] == t;
      if k % 2 == 1 {
        SeparatorStripsAway(t);
      }
    }
  }

  /** A separator piece trims to nothing or to the conjunction itself. */
  lemma SeparatorStripsAway(p: string)
    requires IsSeparatorPiece(p)
    ensures Strip(p) == [] || Strip(p) == Conjunction
  {
    if p == Conjunction {
      assert !IsSpace(p[0]) && !IsSpace(p[2]);
    }
  }

  /** The name cut from a separator-free token keeps that property. */
  lemma NameOfWordIsClean(t: string)
    requires NoSpace(t) && !Contains(t, Conjunction)
    ensures ExtractSubdistrictName(t) != [] ==> IsCleanName(ExtractSubdistrictName(t))
  {
    var name := ExtractSubdistrictName(t);
    if name != [] {
      forall i | 0 <= i < |name| ensures !IsSpace(name[i]) {
        assert name[i] == t[4 + i];
      }
      forall i: nat | i <= |name| ensures !OccursAt(name, Conjunction, i) {
        if OccursAt(name, Conjunction, i) {
          assert t[4 + i..4 + i + 3] == name[i..i + 3];
          assert OccursAt(t, Conjunction, 4 + i);
        }
      }
    }
  }

  // ---------------------------------------------------------------------------
  // What the parser yields
  // ---------------------------------------------------------------------------

  /** Text with no annotation whose trimmed form does not start with the marker yields nothing. */
  lemma NoMarkerNoExceptions(s: string)
    requires !Contains(s, PostOfficeOpen) && !StartsWith(Strip(s), ExclusionMarker)
    ensures ExtractExceptionalZips(s) == map[]
  {
    NoNoiseUnchanged(s);
  }

  /** A cell that is one annotation and nothing else yields nothing. */
  lemma AnnotationOnlyNoExceptions(body: string)
    requires body != [] && ')' !in body
    ensures ExtractExceptionalZips(PostOfficeOpen + body + ")") == map[]
  {
    var s := PostOfficeOpen + body + ")";
    assert s[..9] == PostOfficeOpen && s[9] == body[0];
    assert s[9..] == body + ")";
    assert s[9..][|body|] == ')';
    assert IndexOf(s[9..], ')') == |body|;
    assert NoiseLength(s) == |s|;
    DropsLeading(s);
    assert RemovePostOfficeNoise(s) == [];
  }

  /** The empty cell yields nothing. */
  lemma EmptyCellNoExceptions()
    ensures ExtractExceptionalZips("") == map[]
  {
    assert !OccursAt("", PostOfficeOpen, 0);
    NoMarkerNoExceptions("");
  }

  /**
   * A single clause yields something only when its text ends in "ใช้รหัส "
   * and five digits, and then every name maps to those five digits.
   */
  lemma SingleClauseCode(s: string, data: string)
    requires ClauseData(s) == Some(data) && !HasDashSeparator(data)
    ensures var r := ExtractExceptionalZips(s);
            r != map[] ==> |data| >= 13 && EndsWith(data, CodeLead + data[|data| - 5..])
                           && IsFiveDigits(data[|data| - 5..]) && forall k :: k in r ==> r[k] == data[|data| - 5..]
  {
    TrimmedClauseCode(data);
  }

  /** The same, for the body of a clause: trimmed, so a final line break is not there. */
  lemma TrimmedClauseCode(data: string)
    requires Trimmed(data)
    ensures var r := ParseSingleClause(data);
            r != map[] ==> |data| >= 13 && EndsWith(data, CodeLead + data[|data| - 5..])
                           && IsFiveDigits(data[|data| - 5..]) && forall k :: k in r ==> r[k] == data[|data| - 5..]
  {
    var m := MatchTrailingCode(data);
    if m.Some? {
      assert data[|data| - 1] != '\n';
      assert data[|data| - 13..] == CodeLead + m.value;
      assert data[|data| - 5..] == data[|data| - 13..][8..];
    }
  }

  /** A single clause ending in a parenthesis (an annotation other than a post office) yields nothing. */
  lemma ParenthesisTailNoExceptions(s: string, data: string)
    requires ClauseData(s) == Some(data) && !HasDashSeparator(data)
    requires data != [] && data[|data| - 1] == ')'
    ensures ExtractExceptionalZips(s) == map[]
  {
    ParenthesisTailNoCode(data);
  }

  /** No code is matched at the end of text ending in a parenthesis. */
  lemma ParenthesisTailNoCode(data: string)
    requires data != [] && data[|data| - 1] == ')'
    ensures MatchTrailingCode(data).None?
  {
    assert !IsDecimalDigit(')');
  }

  /** A sub-clause that is a dash glyph alone yields nothing. */
  lemma DashSegmentNoExceptions(d: char)
    requires IsDash(d)
    ensures ExtractExceptionalZips(ExclusionMarker + [d]) == map[]
  {
    MarkedGlyphBody(d);
    TinyBodyNoExceptions(ExclusionMarker + [d], [d]);
  }

  /** A body of at most one character has neither a separator nor a code. */
  lemma TinyBodyNoExceptions(s: string, data: string)
    requires ClauseData(s) == Some(data) && |data| <= 1
    ensures ExtractExceptionalZips(s) == map[]
  {
    TinyBodyParse(data);
  }

  lemma TinyBodyParse(data: string)
    requires |data| <= 1
    ensures !HasDashSeparator(data) && ParseSingleClause(data) == map[]
  {
    assert MatchTrailingCode(data).None?;
  }

  /** The marker followed by one non-space glyph has that glyph as its body. */
  lemma MarkedGlyphBody(d: char)
    requires !IsSpace(d) && d != '('
    ensures ClauseData(ExclusionMarker + [d]) == Some([d])
  {
    var s := ExclusionMarker + [d];
    assert !Contains(s, PostOfficeOpen);
    NoNoiseUnchanged(s);
    assert !IsSpace(s[0]) && !IsSpace(s[6]);
    assert CleanClause(s) == s;
    assert s[..6] == ExclusionMarker && s[6..] == [d];
  }

  /** In a clause with dash separators a name is a key when some sub-clause gives it. */
  lemma CompoundKeys(s: string, data: string)
    requires ClauseData(s) == Some(data) && HasDashSeparator(data)
    ensures var rows := SubClauses(data);
            forall k :: k in ExtractExceptionalZips(s) <==> exists i :: 0 <= i < |rows| && k in ExtractExceptionalZips(rows[i])
  {
    var rows := SubClauses(data);
    var maps := SubClauseMaps(rows, |s|);
    forall i | 0 <= i < |rows| ensures maps[i] == ExtractExceptionalZips(rows[i]) {
      SubClauseMapAt(rows, |s|, i);
    }
  }

  /** On a name given by several sub-clauses, the last one wins. */
  lemma CompoundLastWins(s: string, data: string, i: nat, k: string)
    requires ClauseData(s) == Some(data) && HasDashSeparator(data)
    requires i < |SubClauses(data)| && k in ExtractExceptionalZips(SubClauses(data)[i])
    requires forall j :: i < j < |SubClauses(data)| ==> k !in ExtractExceptionalZips(SubClauses(data)[j])
    ensures k in ExtractExceptionalZips(s)
    ensures ExtractExceptionalZips(s)[k] == ExtractExceptionalZips(SubClauses(data)[i])[k]
  {
    var rows := SubClauses(data);
    var maps := SubClauseMaps(rows, |s|);
    forall j | 0 <= j < |rows| ensures maps[j] == ExtractExceptionalZips(rows[j]) {
      SubClauseMapAt(rows, |s|, j);
    }
    MergeAllLastWins(maps, i, k);
  }
}
