/**
 * What the notes-cell parser of builder/build.py gives for the cells it was
 * written for: "ยกเว้น", a list of words joined by spaces and "และ", then
 * "ใช้รหัส" and a five-digit code. Every word that starts with a subdistrict
 * designator gives its name that code; the other words give nothing.
 */
module ClauseLists {
  import opened Strings
  import opened ExceptionClauses
  import opened Wrappers

  /**
   * One word of a list: its designator ("ตำบล" or "แขวง") and the name after
   * it, or no designator ("") and a plain word such as "เฉพาะซอย" or "64-68,".
   */
  datatype Entry = Entry(designator: string, name: string)

  /** The entry as it is written in the list. */
  function EntryText(e: Entry): string {
    e.designator + e.name
  }

  /**
   * An entry the list can hold: a designator, or none for a word that does not
   * start with one, then a non-empty name with no whitespace, no "และ", no "("
   * (which could open an annotation) and no dash at its end (a dash before the
   * next space would end a sub-clause).
   */
  predicate IsListedEntry(e: Entry) {
    && (e.designator == Tambon || e.designator == Khwaeng || (e.designator == [] && !HasDesignator(e.name)))
    && IsCleanName(e.name)
    && '(' !in e.name
    && !IsDash(e.name[|e.name| - 1])
  }

  /** The glue between two names: spaces and "และ", any number, in any order. */
  predicate IsConnective(g: string)
    decreases |g|
  {
    g == [] || (g[0] == ' ' && IsConnective(g[1..])) || (StartsWith(g, Conjunction) && IsConnective(g[3..]))
  }

  /** The entries written out, `glues[i]` between entry `i` and entry `i + 1`. */
  function NameList(entries: seq<Entry>, glues: seq<string>): (s: string)
    requires |entries| == |glues| + 1
    ensures StartsWith(s, EntryText(entries[0]))
  {
    if |entries| == 1 then EntryText(entries[0])
    else EntryText(entries[0]) + glues[0] + NameList(entries[1..], glues[1..])
  }

  /** The names of the entries that carry a designator, in order. */
  function NamesOf(entries: seq<Entry>): (names: seq<string>)
    ensures |names| <= |entries|
  {
    if entries == [] then []
    else (if entries[0].designator == [] then [] else [entries[0].name]) + NamesOf(entries[1..])
  }

  /** When every entry carries a designator, every name is listed, in order. */
  lemma {:induction false} NamesOfDesignated(entries: seq<Entry>)
    requires forall i :: 0 <= i < |entries| ==> entries[i].designator != []
    ensures |NamesOf(entries)| == |entries|
    ensures forall i :: 0 <= i < |entries| ==> NamesOf(entries)[i] == entries[i].name
    decreases |entries|
  {
    if entries != [] {
      NamesOfDesignated(entries[1..]);
    }
  }

  /** A name is listed exactly when some entry carries it after a designator. */
  lemma {:induction false} NamesOfMembers(entries: seq<Entry>, n: string)
    ensures n in NamesOf(entries) <==> exists i :: 0 <= i < |entries| && entries[i].designator != [] && entries[i].name == n
    decreases |entries|
  {
    if entries != [] {
      NamesOfMembers(entries[1..], n);
      if n in NamesOf(entries[1..]) {
        var i :| 0 <= i < |entries[1..]| && entries[1..][i].designator != [] && entries[1..][i].name == n;
        assert entries[i + 1] == entries[1..][i];
      }
      if exists i :: 0 <= i < |entries| && entries[i].designator != [] && entries[i].name == n {
        var i :| 0 <= i < |entries| && entries[i].designator != [] && entries[i].name == n;
        if i > 0 { assert entries[1..][i - 1] == entries[i]; }
      }
    }
  }

  /** The entries as they are written, in order. */
  function Texts(entries: seq<Entry>): (texts: seq<string>)
    ensures |texts| == |entries|
    ensures forall i :: 0 <= i < |entries| ==> texts[i] == EntryText(entries[i])
  {
    if entries == [] then [] else [EntryText(entries[0])] + Texts(entries[1..])
  }

  /** A character that neither opens an annotation nor breaks the line. */
  predicate IsPlain(c: char) {
    c != '\n' && c != '('
  }

  predicate AllPlain(s: string) {
    forall c :: c in s ==> IsPlain(c)
  }

  // ---------------------------------------------------------------------------
  // Splitting the list: re.split(r"(\s+|และ)", s) on the names and glues
  // ---------------------------------------------------------------------------

  /** Text that starts with a separator splits into an empty first piece. */
  lemma LeadingSeparatorHead(s: string)
    requires s != [] && (IsSpace(s[0]) || StartsWith(s, Conjunction))
    ensures SplitNameList(s)[0] == []
  {
  }

  /** A piece trimming to nothing or to "และ" is not a name token. */
  lemma NameTokensSkip(p: string, rest: seq<string>)
    requires Strip(p) == [] || Strip(p) == Conjunction
    ensures NameTokens([p] + rest) == NameTokens(rest)
  {
    assert ([p] + rest)[1..] == rest;
  }

  /** A separator-free word followed by a separator (or by nothing) is one whole piece. */
  lemma {:induction false} WordThenSeparator(w: string, s: string)
    requires NoSpace(w) && !Contains(w, Conjunction)
    requires s == [] || IsSpace(s[0]) || StartsWith(s, Conjunction)
    ensures SplitNameList(w + s) == [w] + SplitNameList(s)[1..]
    decreases |w|
  {
    if w == [] {
      if s != [] { LeadingSeparatorHead(s); }
      assert w + s == s;
    } else {
      WordHeadNotConjunction(w, s);
      WordTailClean(w);
      WordThenSeparator(w[1..], s);
      WordStep(w, s);
    }
  }

  /** One more word character in front joins the word piece. */
  lemma WordStep(w: string, s: string)
    requires w != [] && !IsSpace(w[0]) && !StartsWith(w + s, Conjunction)
    requires SplitNameList(w[1..] + s) == [w[1..]] + SplitNameList(s)[1..]
    ensures SplitNameList(w + s) == [w] + SplitNameList(s)[1..]
  {
    var x := w + s;
    var tail := SplitNameList(s)[1..];
    assert x[1..] == w[1..] + s;
    var t := SplitNameList(x[1..]);
    assert t == [w[1..]] + tail;
    assert t[0] == w[1..] && t[1..] == tail;
    PlainHead(x);
    assert [x[0]] + w[1..] == w;
  }

  /** Text that starts with neither whitespace nor "และ": its first character joins the first piece of the rest. */
  lemma PlainHead(x: string)
    requires x != [] && !IsSpace(x[0]) && !StartsWith(x, Conjunction)
    ensures SplitNameList(x) == [[x[0]] + SplitNameList(x[1..])[0]] + SplitNameList(x[1..])[1..]
  {
  }

  /** A word followed by a separator does not start with "และ". */
  lemma WordHeadNotConjunction(w: string, s: string)
    requires w != [] && !Contains(w, Conjunction)
    requires s == [] || IsSpace(s[0]) || StartsWith(s, Conjunction)
    ensures !StartsWith(w + s, Conjunction)
  {
    var x := w + s;
    if |w| >= 3 {
      assert x[..3] == w[..3];
      assert !OccursAt(w, Conjunction, 0);
    } else if |x| >= 3 {
      assert x[|w|] == s[0];
      assert s[0] != Conjunction[|w|];
    }
  }

  /** The rest of a separator-free word is separator-free. */
  lemma WordTailClean(w: string)
    requires w != [] && NoSpace(w) && !Contains(w, Conjunction)
    ensures NoSpace(w[1..]) && !Contains(w[1..], Conjunction)
  {
    if Contains(w[1..], Conjunction) { ContainsInSuffix(w, 1, Conjunction); }
  }

  /** Text that starts with whitespace: the run and the empty piece before it are no name tokens. */
  lemma SpaceLedTokens(x: string)
    requires x != [] && IsSpace(x[0])
    ensures NameTokens(SplitNameList(x)) == NameTokens(SplitNameList(x[SpaceRun(x)..]))
  {
    var n := SpaceRun(x);
    var t := SplitNameList(x[n..]);
    assert SplitNameList(x) == [[]] + ([x[..n]] + t);
    NameTokensSkip([], [x[..n]] + t);
    SeparatorStripsAway(x[..n]);
    NameTokensSkip(x[..n], t);
  }

  /** One space in front of the text adds no name token. */
  lemma SpaceDropped(s: string)
    ensures NameTokens(SplitNameList([' '] + s)) == NameTokens(SplitNameList(s))
  {
    var x := [' '] + s;
    SpaceLedTokens(x);
    assert x[1..] == s;
    assert x[SpaceRun(x)..] == s[SpaceRun(s)..];
    if s != [] && IsSpace(s[0]) {
      SpaceLedTokens(s);
    } else {
      assert s[SpaceRun(s)..] == s;
    }
  }

  /** "และ" in front of the text adds no name token. */
  lemma ConjunctionDropped(s: string)
    ensures NameTokens(SplitNameList(Conjunction + s)) == NameTokens(SplitNameList(s))
  {
    var x := Conjunction + s;
    assert x[..3] == Conjunction && x[3..] == s;
    assert !IsSpace(x[0]);
    assert SplitNameList(x) == [[]] + ([Conjunction] + SplitNameList(s));
    NameTokensSkip([], [Conjunction] + SplitNameList(s));
    SeparatorStripsAway(Conjunction);
    NameTokensSkip(Conjunction, SplitNameList(s));
  }

  /** Glue in front of the text adds no name token. */
  lemma {:induction false} ConnectiveDropped(g: string, s: string)
    requires IsConnective(g)
    ensures NameTokens(SplitNameList(g + s)) == NameTokens(SplitNameList(s))
    decreases |g|
  {
    if g == [] {
      assert g + s == s;
    } else if g[0] == ' ' && IsConnective(g[1..]) {
      assert g + s == [' '] + (g[1..] + s);
      SpaceDropped(g[1..] + s);
      ConnectiveDropped(g[1..], s);
    } else {
      assert g + s == Conjunction + (g[3..] + s);
      ConjunctionDropped(g[3..] + s);
      ConnectiveDropped(g[3..], s);
    }
  }

  /** A word followed by glue (or by nothing) is one name token. */
  lemma WordToken(w: string, s: string)
    requires w != [] && NoSpace(w) && !Contains(w, Conjunction)
    requires s == [] || IsSpace(s[0]) || StartsWith(s, Conjunction)
    ensures NameTokens(SplitNameList(w + s)) == [w] + NameTokens(SplitNameList(s))
  {
    WordThenSeparator(w, s);
    var pieces := SplitNameList(s);
    if s != [] { LeadingSeparatorHead(s); }
    assert pieces == [[]] + pieces[1..];
    NameTokensSkip([], pieces[1..]);
    assert Strip(w) == w;
    assert w != Conjunction by { assert !OccursAt(w, Conjunction, 0); }
    assert ([w] + pieces[1..])[1..] == pieces[1..];
  }

  /** A non-empty connective starts with a separator. */
  lemma ConnectiveStartsWithSeparator(g: string)
    requires IsConnective(g) && g != []
    ensures IsSpace(g[0]) || StartsWith(g, Conjunction)
  {
  }

  /** The written entry is a separator-free word. */
  lemma EntryIsWord(e: Entry)
    requires IsListedEntry(e)
    ensures EntryText(e) != [] && NoSpace(EntryText(e)) && !Contains(EntryText(e), Conjunction)
  {
    var t := EntryText(e);
    if e.designator == [] {
      assert t == e.name;
      return;
    }
    assert t[..4] == e.designator && t[4..] == e.name;
    forall i: nat | i <= |t| ensures !OccursAt(t, Conjunction, i) {
      if i >= 4 && i + 3 <= |t| {
        assert t[i..i + 3] == e.name[i - 4..i - 4 + 3];
        assert !OccursAt(e.name, Conjunction, i - 4);
      } else if i + 3 <= |t| {
        assert t[i] == e.designator[i];
        if i < 3 { assert t[i + 1] == e.designator[i + 1]; }
        assert t[i] != Conjunction[0] || t[i + 1] != Conjunction[1];
      }
    }
  }

  lemma Regroup(a: string, b: string, c: string, d: string)
    ensures a + b + c + d == a + (b + (c + d))
  {
  }

  /** The tokens of a list with trailing glue are its entries, as written, in order. */
  lemma {:induction false} ListTokens(entries: seq<Entry>, glues: seq<string>, tail: string)
    requires |entries| == |glues| + 1
    requires forall i :: 0 <= i < |entries| ==> IsListedEntry(entries[i])
    requires forall i :: 0 <= i < |glues| ==> glues[i] != [] && IsConnective(glues[i])
    requires IsConnective(tail)
    ensures NameTokens(SplitNameList(NameList(entries, glues) + tail)) == Texts(entries)
    decreases |entries|
  {
    var w := EntryText(entries[0]);
    EntryIsWord(entries[0]);
    if |entries| == 1 {
      LastWord(w, tail);
    } else {
      var list := NameList(entries[1..], glues[1..]);
      GluedWord(w, glues[0], list, tail);
      ListTokens(entries[1..], glues[1..], tail);
      assert Texts(entries) == [w] + Texts(entries[1..]);
    }
  }

  /** The last word, then glue: one token. */
  lemma LastWord(w: string, tail: string)
    requires w != [] && NoSpace(w) && !Contains(w, Conjunction)
    requires IsConnective(tail)
    ensures NameTokens(SplitNameList(w + tail)) == [w]
  {
    if tail != [] { ConnectiveStartsWithSeparator(tail); }
    WordToken(w, tail);
    ConnectiveDropped(tail, []);
    assert tail + [] == tail;
  }

  /** A word, glue, then more text: the word is a token and the glue adds none. */
  lemma GluedWord(w: string, g: string, list: string, tail: string)
    requires w != [] && NoSpace(w) && !Contains(w, Conjunction)
    requires g != [] && IsConnective(g)
    ensures NameTokens(SplitNameList(w + g + list + tail)) == [w] + NameTokens(SplitNameList(list + tail))
  {
    var rest := list + tail;
    Regroup(w, g, list, tail);
    ConnectiveStartsWithSeparator(g);
    assert (g + rest)[0] == g[0];
    assert StartsWith(g, Conjunction) ==> StartsWith(g + rest, Conjunction) by {
      if StartsWith(g, Conjunction) { assert (g + rest)[..3] == g[..3]; }
    }
    WordToken(w, g + rest);
    ConnectiveDropped(g, rest);
  }

  // ---------------------------------------------------------------------------
  // The whole cell
  // ---------------------------------------------------------------------------

  lemma {:induction false} ConnectivePlain(g: string)
    requires IsConnective(g)
    ensures AllPlain(g)
    decreases |g|
  {
    if g != [] {
      if g[0] == ' ' && IsConnective(g[1..]) {
        ConnectivePlain(g[1..]);
        assert g == [' '] + g[1..];
      } else {
        ConnectivePlain(g[3..]);
        assert g == Conjunction + g[3..];
      }
    }
  }

  lemma EntryPlain(e: Entry)
    requires IsListedEntry(e)
    ensures AllPlain(EntryText(e))
  {
    forall c | c in e.name ensures IsPlain(c) {
      var i :| 0 <= i < |e.name| && e.name[i] == c;
      assert !IsSpace(e.name[i]);
    }
  }

  lemma {:induction false} ListPlain(entries: seq<Entry>, glues: seq<string>)
    requires |entries| == |glues| + 1
    requires forall i :: 0 <= i < |entries| ==> IsListedEntry(entries[i])
    requires forall i :: 0 <= i < |glues| ==> glues[i] != [] && IsConnective(glues[i])
    ensures AllPlain(NameList(entries, glues))
    decreases |entries|
  {
    EntryPlain(entries[0]);
    if |entries| > 1 {
      ConnectivePlain(glues[0]);
      ListPlain(entries[1..], glues[1..]);
    }
  }

  lemma NoLineBreak(s: string)
    requires NoSpace(s)
    ensures '\n' !in s
  {
    forall k | 0 <= k < |s| ensures s[k] != '\n' { assert !IsSpace(s[k]); }
  }

  /**
   * The non-empty names cut from the written entries are the names of the
   * entries that carry a designator.
   */
  lemma EntryNames(entries: seq<Entry>)
    requires forall i :: 0 <= i < |entries| ==> IsListedEntry(entries[i])
    ensures forall n :: n in SubdistrictNames(Texts(entries)) && n != [] <==> n in NamesOf(entries)
  {
    forall n | n in SubdistrictNames(Texts(entries)) && n != [] ensures n in NamesOf(entries) {
      CutNameListed(entries, n);
    }
    forall n | n in NamesOf(entries) ensures n in SubdistrictNames(Texts(entries)) && n != [] {
      ListedNameCut(entries, n);
    }
  }

  lemma CutNameListed(entries: seq<Entry>, n: string)
    requires forall i :: 0 <= i < |entries| ==> IsListedEntry(entries[i])
    requires n in SubdistrictNames(Texts(entries)) && n != []
    ensures n in NamesOf(entries)
  {
    var names := SubdistrictNames(Texts(entries));
    var i :| 0 <= i < |names| && names[i] == n;
    EntryNameAt(entries, i);
    NamesOfMembers(entries, n);
  }

  lemma ListedNameCut(entries: seq<Entry>, n: string)
    requires forall i :: 0 <= i < |entries| ==> IsListedEntry(entries[i])
    requires n in NamesOf(entries)
    ensures n in SubdistrictNames(Texts(entries)) && n != []
  {
    NamesOfMembers(entries, n);
    var i :| 0 <= i < |entries| && entries[i].designator != [] && entries[i].name == n;
    EntryNameAt(entries, i);
  }

  lemma EntryNameAt(entries: seq<Entry>, i: nat)
    requires i < |entries| && IsListedEntry(entries[i])
    ensures i < |SubdistrictNames(Texts(entries))|
    ensures SubdistrictNames(Texts(entries))[i] == if entries[i].designator == [] then [] else entries[i].name
  {
    var texts := Texts(entries);
    assert texts[i] == EntryText(entries[i]);
    EntryName(entries[i]);
  }

  /** The name cut from a written entry: the entry's name after a designator, nothing after none. */
  lemma EntryName(e: Entry)
    requires IsListedEntry(e)
    ensures ExtractSubdistrictName(EntryText(e)) == if e.designator == [] then [] else e.name
    ensures e.name != []
  {
    if e.designator == [] {
      assert EntryText(e) == e.name;
    } else {
      NoLineBreak(e.name);
      DesignatedNameRoundTrip(e.name);
    }
  }

  /** The code at the end of a one-line body is found, and what comes before "ใช้รหัส " is the list and one space. */
  lemma TrailingCodeOfList(list: string, code: string)
    requires '\n' !in list && IsFiveDigits(code)
    ensures var data := list + " " + CodeLead + code;
            MatchTrailingCode(data) == Some(code) && data[..|data| - 13] == list + " "
  {
    var data := list + " " + CodeLead + code;
    assert data[..|data| - 5] == list + " " + CodeLead;
    assert data[|data| - 5..] == code;
    assert data[..|data| - 13] == list + " ";
  }

  /** A clause whose code is found maps each non-empty name cut from its list to the code. */
  lemma ParsedNames(data: string, code: string, names: seq<string>)
    requires MatchTrailingCode(data) == Some(code)
    requires SubdistrictNames(NameTokens(SplitNameList(data[..|data| - 13]))) == names
    ensures ParseSingleClause(data) == map n | n in names && n != [] :: code
  {
  }

  /** A one-line list then " ใช้รหัส " and a code: the non-empty names cut from the list get the code. */
  lemma ParsedList(list: string, code: string, names: seq<string>)
    requires '\n' !in list && IsFiveDigits(code)
    requires SubdistrictNames(NameTokens(SplitNameList(list + " "))) == names
    ensures ParseSingleClause(list + " " + CodeLead + code) == map n | n in names && n != [] :: code
  {
    TrailingCodeOfList(list, code);
    ParsedNames(list + " " + CodeLead + code, code, names);
  }

  /**
   * The body of a clause, a word list then "ใช้รหัส " and the code: the name
   * of every designated word, and nothing else, maps to the code; words
   * without a designator add no key.
   */
  lemma ListClause(entries: seq<Entry>, glues: seq<string>, code: string)
    requires |entries| == |glues| + 1
    requires forall i :: 0 <= i < |entries| ==> IsListedEntry(entries[i])
    requires forall i :: 0 <= i < |glues| ==> glues[i] != [] && IsConnective(glues[i])
    requires IsFiveDigits(code)
    ensures ParseSingleClause(NameList(entries, glues) + " " + CodeLead + code) == map n | n in NamesOf(entries) :: code
  {
    var list := NameList(entries, glues);
    ListPlain(entries, glues);
    assert IsConnective(" ") by { assert " "[1..] == []; }
    ListTokens(entries, glues, " ");
    var names := SubdistrictNames(Texts(entries));
    ParsedList(list, code, names);
    EntryNames(entries);
    SameKeys(names, NamesOf(entries), code);
  }

  lemma SameKeys(names: seq<string>, keys: seq<string>, code: string)
    requires forall n :: n in names && n != [] <==> n in keys
    ensures (map n | n in names && n != [] :: code) == map n | n in keys :: code
  {
  }

  /** A decimal digit is not whitespace. */
  lemma DigitIsNotSpace(c: char)
    requires IsDecimalDigit(c)
    ensures !IsSpace(c)
  {
  }

  /** Plain text holds no annotation, so the noise stripper keeps it whole. */
  lemma PlainHasNoNoise(s: string)
    requires AllPlain(s)
    ensures RemovePostOfficeNoise(s) == s
  {
    forall i: nat | i <= |s| ensures !OccursAt(s, PostOfficeOpen, i) {
      if i + 9 <= |s| { assert s[i] in s; }
    }
    NoNoiseUnchanged(s);
  }

  predicate DashFree(s: string) {
    forall c :: c in s ==> !IsDash(c)
  }

  /** Text without a space holds no dash separator. */
  lemma NoSpaceNoSeparator(s: string)
    requires NoSpace(s)
    ensures !HasDashSeparator(s)
  {
    forall i | 0 <= i < |s| - 1 ensures !DashSeparatorAt(s, i) {
      assert !IsSpace(s[i + 1]);
    }
  }

  /** Text without a dash holds no dash separator. */
  lemma DashFreeNoSeparator(s: string)
    requires DashFree(s)
    ensures !HasDashSeparator(s)
  {
    forall i | 0 <= i < |s| - 1 ensures !DashSeparatorAt(s, i) {
      assert s[i] in s;
    }
  }

  /** Two texts without a dash separator, the first not ending in a dash, hold none once joined. */
  lemma NoSeparatorAppend(a: string, b: string)
    requires !HasDashSeparator(a) && !HasDashSeparator(b) && (a == [] || !IsDash(a[|a| - 1]))
    ensures !HasDashSeparator(a + b)
  {
    var s := a + b;
    forall i | 0 <= i < |s| - 1 ensures !DashSeparatorAt(s, i) {
      if i + 1 < |a| {
        assert s[i] == a[i] && s[i + 1] == a[i + 1];
        assert !DashSeparatorAt(a, i);
      } else if i >= |a| {
        assert s[i] == b[i - |a|] && s[i + 1] == b[i - |a| + 1];
        assert !DashSeparatorAt(b, i - |a|);
      } else {
        assert s[i] == a[|a| - 1];
      }
    }
  }

  lemma {:induction false} ConnectiveDashFree(g: string)
    requires IsConnective(g)
    ensures DashFree(g)
    decreases |g|
  {
    if g != [] {
      if g[0] == ' ' && IsConnective(g[1..]) {
        ConnectiveDashFree(g[1..]);
        assert g == [' '] + g[1..];
      } else {
        ConnectiveDashFree(g[3..]);
        assert g == Conjunction + g[3..];
      }
    }
  }

  /** A written entry is a word with no separator, and it does not end in a dash. */
  lemma EntryNoSeparator(e: Entry)
    requires IsListedEntry(e)
    ensures !HasDashSeparator(EntryText(e)) && !IsDash(EntryText(e)[|EntryText(e)| - 1])
  {
    EntryIsWord(e);
    NoSpaceNoSeparator(EntryText(e));
    assert EntryText(e)[|EntryText(e)| - 1] == e.name[|e.name| - 1];
  }

  /** A word list followed by dash-free text holds no dash separator. */
  lemma {:induction false} ListNoSeparator(entries: seq<Entry>, glues: seq<string>, tail: string)
    requires |entries| == |glues| + 1
    requires forall i :: 0 <= i < |entries| ==> IsListedEntry(entries[i])
    requires forall i :: 0 <= i < |glues| ==> glues[i] != [] && IsConnective(glues[i])
    requires DashFree(tail)
    ensures !HasDashSeparator(NameList(entries, glues) + tail)
    decreases |entries|
  {
    var w := EntryText(entries[0]);
    EntryNoSeparator(entries[0]);
    if |entries| == 1 {
      DashFreeNoSeparator(tail);
      NoSeparatorAppend(w, tail);
    } else {
      var g := glues[0];
      var list := NameList(entries[1..], glues[1..]);
      ListNoSeparator(entries[1..], glues[1..], tail);
      ConnectiveDashFree(g);
      DashFreeNoSeparator(g);
      assert g[|g| - 1] in g;
      NoSeparatorAppend(g, list + tail);
      NoSeparatorAppend(w, g + (list + tail));
      Regroup(w, g, list, tail);
    }
  }

  /** The code and the text before it hold no dash. */
  lemma CodeTailDashFree(code: string)
    requires IsFiveDigits(code)
    ensures DashFree(" " + CodeLead + code)
  {
    forall c | c in " " + CodeLead + code ensures !IsDash(c) {
      if c in code {
        var i :| 0 <= i < 5 && code[i] == c;
        assert IsDecimalDigit(code[i]);
      }
    }
  }

  /** A word list followed by " ใช้รหัส " and a code holds no dash separator. */
  lemma ListBodyNoSeparator(entries: seq<Entry>, glues: seq<string>, code: string)
    requires |entries| == |glues| + 1
    requires forall i :: 0 <= i < |entries| ==> IsListedEntry(entries[i])
    requires forall i :: 0 <= i < |glues| ==> glues[i] != [] && IsConnective(glues[i])
    requires IsFiveDigits(code)
    ensures !HasDashSeparator(NameList(entries, glues) + " " + CodeLead + code)
  {
    var list := NameList(entries, glues);
    var tail := " " + CodeLead + code;
    CodeTailDashFree(code);
    ListNoSeparator(entries, glues, tail);
    assert list + " " + CodeLead + code == list + tail;
  }

  /** Plain text that is already trimmed is its own cleaned form. */
  lemma PlainTrimmedIsClean(s: string)
    requires AllPlain(s) && s != [] && !IsSpace(s[0]) && !IsSpace(s[|s| - 1])
    ensures CleanClause(s) == s
  {
    PlainHasNoNoise(s);
  }

  /** Whitespace-free ends: "ยกเว้น " + the body strips back to the body once the marker is cut. */
  lemma StripAfterMarker(data: string)
    requires data != [] && !IsSpace(data[0]) && !IsSpace(data[|data| - 1])
    ensures StartsWith(ExclusionMarker + " " + data, ExclusionMarker)
    ensures Strip((ExclusionMarker + " " + data)[6..]) == data
  {
    var body := [' '] + data;
    assert ExclusionMarker + " " + data == ExclusionMarker + body;
    assert body + [] == body;
    StripOfPadded([' '], data, []);
  }

  lemma MarkedPlain(data: string)
    requires AllPlain(data)
    ensures AllPlain(ExclusionMarker + " " + data)
  {
  }

  /** A plain, trimmed body after "ยกเว้น " is the clause data. */
  lemma PlainCellData(data: string)
    requires AllPlain(data) && data != [] && !IsSpace(data[0]) && !IsSpace(data[|data| - 1])
    ensures ClauseData(ExclusionMarker + " " + data) == Some(data)
  {
    var cell := ExclusionMarker + " " + data;
    MarkedCellIsClean(data);
    StripAfterMarker(data);
    ClauseDataOf(cell, cell, data);
  }

  lemma MarkedCellIsClean(data: string)
    requires AllPlain(data) && data != [] && !IsSpace(data[|data| - 1])
    ensures CleanClause(ExclusionMarker + " " + data) == ExclusionMarker + " " + data
  {
    var cell := ExclusionMarker + " " + data;
    MarkedPlain(data);
    assert cell[|cell| - 1] == data[|data| - 1];
    PlainTrimmedIsClean(cell);
  }

  /** A cell whose cleaned form starts with the marker: the data is the rest of the cleaned form, stripped. */
  lemma ClauseDataOf(s: string, cell: string, data: string)
    requires CleanClause(s) == cell && StartsWith(cell, ExclusionMarker) && Strip(cell[6..]) == data
    ensures ClauseData(s) == Some(data)
  {
  }

  /**
   * A notes cell holding one clause, "ยกเว้น " + a name list + " ใช้รหัส " +
   * a five-digit code, maps every listed name, and nothing else, to the code.
   */
  lemma SingleListCell(entries: seq<Entry>, glues: seq<string>, code: string)
    requires |entries| == |glues| + 1
    requires forall i :: 0 <= i < |entries| ==> IsListedEntry(entries[i])
    requires forall i :: 0 <= i < |glues| ==> glues[i] != [] && IsConnective(glues[i])
    requires IsFiveDigits(code)
    ensures ExtractExceptionalZips(ExclusionMarker + " " + NameList(entries, glues) + " " + CodeLead + code)
            == map n | n in NamesOf(entries) :: code
  {
    var list := NameList(entries, glues);
    var data := list + " " + CodeLead + code;
    assert ExclusionMarker + " " + list + " " + CodeLead + code == ExclusionMarker + " " + data;
    ListPlain(entries, glues);
    EntryIsWord(entries[0]);
    ListBodyPlain(list, code);
    ListBodyNoSeparator(entries, glues, code);
    PlainClauseCell(data);
    ListClause(entries, glues, code);
  }

  /** A plain list with a code after it is a plain body with whitespace-free ends. */
  lemma ListBodyPlain(list: string, code: string)
    requires AllPlain(list) && list != [] && !IsSpace(list[0]) && IsFiveDigits(code)
    ensures var data := list + " " + CodeLead + code;
            AllPlain(data) && !IsSpace(data[0]) && !IsSpace(data[|data| - 1])
  {
    var data := list + " " + CodeLead + code;
    CodePlain(code);
    assert AllPlain(" " + CodeLead);
    assert data == list + (" " + CodeLead) + code;
    DigitIsNotSpace(code[4]);
    assert data[0] == list[0] && data[|data| - 1] == code[4];
  }

  lemma CodePlain(code: string)
    requires IsFiveDigits(code)
    ensures AllPlain(code)
  {
    forall c | c in code ensures IsPlain(c) {
      var i :| 0 <= i < 5 && code[i] == c;
      assert IsDecimalDigit(code[i]);
    }
  }

  /** A plain body after "ยกเว้น " is parsed as one clause. */
  lemma PlainClauseCell(data: string)
    requires AllPlain(data) && data != [] && !IsSpace(data[0]) && !IsSpace(data[|data| - 1])
    requires !HasDashSeparator(data)
    ensures ExtractExceptionalZips(ExclusionMarker + " " + data) == ParseSingleClause(data)
  {
    PlainCellData(data);
  }

  /** Plain text followed by one whole annotation: the stripper keeps the text and deletes the annotation. */
  lemma {:induction false} PlainThenAnnotation(a: string, note: string)
    requires AllPlain(a) && NoiseLength(note) == |note|
    ensures RemovePostOfficeNoise(a + note) == a
    decreases |a|
  {
    if a == [] {
      assert a + note == note;
      WholeNoteDeleted(note);
    } else {
      PlainStep(a, note);
      PlainThenAnnotation(a[1..], note);
      assert a == [a[0]] + a[1..];
    }
  }

  /** One step of the scan over plain text: its first character is kept, and the rest is plain. */
  lemma PlainStep(a: string, note: string)
    requires AllPlain(a) && a != []
    ensures RemovePostOfficeNoise(a + note) == [a[0]] + RemovePostOfficeNoise(a[1..] + note)
    ensures AllPlain(a[1..])
  {
    var s := a + note;
    assert s[0] == a[0] && a[0] in a;
    PlainHeadKept(s);
    assert s[1..] == a[1..] + note;
    forall c | c in a[1..] ensures IsPlain(c) { assert c in a; }
  }

  /** A text that is one whole annotation is deleted. */
  lemma WholeNoteDeleted(note: string)
    requires NoiseLength(note) == |note|
    ensures RemovePostOfficeNoise(note) == []
  {
    if note != [] {
      DropsLeading(note);
      assert note[|note|..] == [];
    }
  }

  /** A plain first character opens no annotation, so it is kept. */
  lemma PlainHeadKept(s: string)
    requires s != [] && IsPlain(s[0])
    ensures RemovePostOfficeNoise(s) == [s[0]] + RemovePostOfficeNoise(s[1..])
  {
    assert !StartsWith(s, PostOfficeOpen) by {
      assert PostOfficeOpen[0] == '(';
      if |s| >= 9 { assert s[..9][0] != PostOfficeOpen[0]; }
    }
    KeepsFirst(s);
  }

  /** "(ไปรษณีย์" + a place name without ")" + ")" is one whole annotation. */
  lemma WholeAnnotation(place: string)
    requires place != [] && ')' !in place
    ensures NoiseLength(PostOfficeOpen + place + ")") == |place| + 10
  {
    var s := PostOfficeOpen + place + ")";
    assert s[..9] == PostOfficeOpen;
    assert s[9] == place[0] && place[0] in place;
    assert s[10..][|s| - 11] == ')';
    forall j | 9 <= j < |s| - 1 ensures s[j] != ')' {
      assert s[j] == place[j - 9] && place[j - 9] in place;
    }
  }

  /** A trailing annotation after a plain clause is deleted, and the clause is parsed as before. */
  lemma AnnotatedClauseCell(data: string, note: string)
    requires AllPlain(data) && data != [] && !IsSpace(data[0]) && !IsSpace(data[|data| - 1])
    requires !HasDashSeparator(data) && NoiseLength(note) == |note|
    ensures ExtractExceptionalZips(ExclusionMarker + " " + data + " " + note) == ParseSingleClause(data)
  {
    var cell := ExclusionMarker + " " + data;
    MarkedPlain(data);
    assert cell[0] == ExclusionMarker[0] && cell[|cell| - 1] == data[|data| - 1];
    NoteDeleted(cell, note);
    StripAfterMarker(data);
    ClauseDataOf(ExclusionMarker + " " + data + " " + note, cell, data);
  }

  /** Cleaning a plain, trimmed text followed by a space and one whole annotation gives back the text. */
  lemma NoteDeleted(cell: string, note: string)
    requires AllPlain(cell) && cell != [] && !IsSpace(cell[0]) && !IsSpace(cell[|cell| - 1])
    requires NoiseLength(note) == |note|
    ensures CleanClause(cell + " " + note) == cell
  {
    assert AllPlain(cell + " ");
    PlainThenAnnotation(cell + " ", note);
    assert cell + " " == [] + cell + " ";
    StripOfPadded([], cell, " ");
  }

  /**
   * A single-clause cell with a post-office annotation after the code maps
   * the same names to the same code as the cell without it.
   */
  lemma AnnotatedListCell(entries: seq<Entry>, glues: seq<string>, code: string, note: string)
    requires |entries| == |glues| + 1
    requires forall i :: 0 <= i < |entries| ==> IsListedEntry(entries[i])
    requires forall i :: 0 <= i < |glues| ==> glues[i] != [] && IsConnective(glues[i])
    requires IsFiveDigits(code) && NoiseLength(note) == |note|
    ensures ExtractExceptionalZips(ExclusionMarker + " " + NameList(entries, glues) + " " + CodeLead + code + " " + note)
            == map n | n in NamesOf(entries) :: code
  {
    var list := NameList(entries, glues);
    var data := list + " " + CodeLead + code;
    assert ExclusionMarker + " " + list + " " + CodeLead + code + " " + note == ExclusionMarker + " " + data + " " + note;
    ListPlain(entries, glues);
    EntryIsWord(entries[0]);
    ListBodyPlain(list, code);
    ListBodyNoSeparator(entries, glues, code);
    AnnotatedClauseCell(data, note);
    ListClause(entries, glues, code);
  }

  /** An annotation at the very start is one whole match, whatever follows it. */
  lemma NoteThenRest(note: string, rest: string)
    requires note != [] && NoiseLength(note) == |note|
    ensures NoiseLength(note + rest) == |note|
  {
    var s := note + rest;
    var n := |note|;
    assert s[..9] == note[..9];
    assert s[9] == note[9] && s[n - 1] == ')';
    assert s[10..][n - 11] == ')';
  }

  /** An annotation at the very start is deleted, and the scan goes on with what follows it. */
  lemma LeadingNoteDropped(note: string, rest: string)
    requires NoiseLength(note) == |note|
    ensures RemovePostOfficeNoise(note + rest) == RemovePostOfficeNoise(rest)
  {
    if note == [] {
      assert note + rest == rest;
    } else {
      NoteThenRest(note, rest);
      DropsLeading(note + rest);
      assert (note + rest)[|note|..] == rest;
    }
  }

  /**
   * A plain clause with an annotation before the marker and one after the
   * code: both are deleted, and the clause is parsed as without them.
   */
  lemma NotedClauseCell(before: string, data: string, after: string)
    requires AllPlain(data) && data != [] && !IsSpace(data[0]) && !IsSpace(data[|data| - 1])
    requires !HasDashSeparator(data)
    requires NoiseLength(before) == |before| && NoiseLength(after) == |after|
    ensures ExtractExceptionalZips(before + " " + ExclusionMarker + " " + data + " " + after) == ParseSingleClause(data)
  {
    var cell := ExclusionMarker + " " + data;
    var s := before + " " + ExclusionMarker + " " + data + " " + after;
    assert s == before + " " + cell + " " + after;
    MarkedPlain(data);
    assert cell[0] == ExclusionMarker[0] && cell[|cell| - 1] == data[|data| - 1];
    NotesDeleted(before, cell, after);
    StripAfterMarker(data);
    ClauseDataOf(s, cell, data);
  }

  /** Cleaning a plain, trimmed text between two annotations, a space on each side, gives back the text. */
  lemma NotesDeleted(before: string, cell: string, after: string)
    requires AllPlain(cell) && cell != [] && !IsSpace(cell[0]) && !IsSpace(cell[|cell| - 1])
    requires NoiseLength(before) == |before| && NoiseLength(after) == |after|
    ensures CleanClause(before + " " + cell + " " + after) == cell
  {
    var middle := " " + cell + " ";
    var s := before + " " + cell + " " + after;
    assert s == before + (middle + after);
    PaddedPlain(cell);
    calc {
      CleanClause(s);
      Strip(RemovePostOfficeNoise(before + (middle + after)));
      { LeadingNoteDropped(before, middle + after); }
      Strip(RemovePostOfficeNoise(middle + after));
      { PlainThenAnnotation(middle, after); }
      Strip(middle);
      { StripOfPadded(" ", cell, " "); }
      cell;
    }
  }

  /** A space on each side of plain text keeps it plain. */
  lemma PaddedPlain(cell: string)
    requires AllPlain(cell)
    ensures AllPlain(" " + cell + " ")
  { }

  /**
   * A single-clause cell between two annotations maps the same names to the
   * same code as the bare cell.
   */
  lemma NotedListCell(entries: seq<Entry>, glues: seq<string>, code: string, before: string, after: string)
    requires |entries| == |glues| + 1
    requires forall i :: 0 <= i < |entries| ==> IsListedEntry(entries[i])
    requires forall i :: 0 <= i < |glues| ==> glues[i] != [] && IsConnective(glues[i])
    requires IsFiveDigits(code) && NoiseLength(before) == |before| && NoiseLength(after) == |after|
    ensures ExtractExceptionalZips(before + " " + ExclusionMarker + " " + NameList(entries, glues) + " " + CodeLead + code + " " + after)
            == map n | n in NamesOf(entries) :: code
  {
    var list := NameList(entries, glues);
    var data := list + " " + CodeLead + code;
    assert before + " " + ExclusionMarker + " " + list + " " + CodeLead + code + " " + after
        == before + " " + ExclusionMarker + " " + data + " " + after;
    ListPlain(entries, glues);
    EntryIsWord(entries[0]);
    ListBodyPlain(list, code);
    ListBodyNoSeparator(entries, glues, code);
    NotedClauseCell(before, data, after);
    ListClause(entries, glues, code);
  }

  // ---------------------------------------------------------------------------
  // The builder's own single-clause cells (builder_tests/extract_exceptional_test.py)
  // ---------------------------------------------------------------------------

  /** A character of the Thai block, an ASCII digit, a hyphen or a comma. */
  predicate IsWordChar(c: char) {
    ('ก' <= c <= '๙') || ('0' <= c <= '9') || c == '-' || c == ','
  }

  /**
   * A name of such characters, with no "แ" before "ล" (so no "และ") and not
   * ending in a hyphen, is a listed entry after a designator, and also
   * without one when it starts with neither "ต" nor "แ".
   */
  lemma WordEntry(designator: string, name: string)
    requires designator == Tambon || designator == Khwaeng || designator == []
    requires name != [] && (forall k :: 0 <= k < |name| ==> IsWordChar(name[k])) && name[|name| - 1] != '-'
    requires forall k :: 0 <= k < |name| - 1 && name[k] == 'แ' ==> name[k + 1] != 'ล'
    requires designator == [] ==> name[0] != Tambon[0] && name[0] != Khwaeng[0]
    ensures IsListedEntry(Entry(designator, name))
  {
    forall i: nat | i <= |name| ensures !OccursAt(name, Conjunction, i) {
      if i + 3 <= |name| {
        assert name[i..i + 3][0] == name[i] && name[i..i + 3][1] == name[i + 1];
        assert name[i] != Conjunction[0] || name[i + 1] != Conjunction[1];
      }
    }
    forall k | 0 <= k < |name| ensures !IsSpace(name[k]) && name[k] != '(' {
      assert IsWordChar(name[k]);
    }
    if |name| >= 4 {
      assert name[..4][0] == name[0];
    }
  }

  /**
   * The entries written after `prefix` one at a time, each entry's glue after
   * it: the text nests to the left, as a written-out list does.
   */
  function WrittenAfter(prefix: string, entries: seq<Entry>, glues: seq<string>): (s: string)
    requires |entries| == |glues| + 1
    ensures s == prefix + NameList(entries, glues)
    decreases |entries|
  {
    if |entries| == 1 then prefix + EntryText(entries[0])
    else
      var s := WrittenAfter(prefix + EntryText(entries[0]) + glues[0], entries[1..], glues[1..]);
      AppendAssoc(prefix + EntryText(entries[0]), glues[0], NameList(entries[1..], glues[1..]));
      AppendAssoc(prefix, EntryText(entries[0]), glues[0] + NameList(entries[1..], glues[1..]));
      s
  }

  /** One entry and its glue written after the prefix. */
  lemma WrittenStep(prefix: string, e: Entry, g: string, entries: seq<Entry>, glues: seq<string>)
    requires |entries| == |glues| + 1
    ensures WrittenAfter(prefix, [e] + entries, [g] + glues) == WrittenAfter(prefix + EntryText(e) + g, entries, glues)
  {
    assert ([e] + entries)[1..] == entries && ([g] + glues)[1..] == glues;
  }

  /** The designated names of one more entry in front. */
  lemma NamesOfCons(e: Entry, entries: seq<Entry>)
    ensures NamesOf([e] + entries) == (if e.designator == [] then [] else [e.name]) + NamesOf(entries)
  {
    assert ([e] + entries)[1..] == entries;
  }

  lemma ListedCons(e: Entry, entries: seq<Entry>)
    requires IsListedEntry(e) && forall i :: 0 <= i < |entries| ==> IsListedEntry(entries[i])
    ensures forall i :: 0 <= i < |[e] + entries| ==> IsListedEntry(([e] + entries)[i])
  {
  }

  lemma GlueCons(g: string, glues: seq<string>)
    requires g != [] && IsConnective(g) && forall i :: 0 <= i < |glues| ==> glues[i] != [] && IsConnective(glues[i])
    ensures forall i :: 0 <= i < |[g] + glues| ==> ([g] + glues)[i] != [] && IsConnective(([g] + glues)[i])
  {
  }

  /** A place name of Thai letters makes one whole annotation. */
  lemma ThaiAnnotation(place: string)
    requires place != [] && forall k :: 0 <= k < |place| ==> 'ก' <= place[k]
    ensures NoiseLength(PostOfficeOpen + place + ")") == |PostOfficeOpen + place + ")"|
  {
    assert ')' !in place by {
      forall k | 0 <= k < |place| ensures place[k] != ')' { assert place[k] >= 'ก'; }
    }
    WholeAnnotation(place);
  }

  /** "ยกเว้น " and " ใช้รหัส " are the marker and the code lead with their spaces. */
  lemma CellText(list: string, code: string)
    ensures "ยกเว้น " + list + " ใช้รหัส " + code == ExclusionMarker + " " + list + " " + CodeLead + code
  {
    assert "ยกเว้น " == ExclusionMarker + " ";
    assert " ใช้รหัส " == " " + CodeLead;
  }

  lemma AppendAssoc(a: string, b: string, c: string)
    ensures a + b + c == a + (b + c)
  {
  }

  /** A one-name clause. */
  lemma OneNameCell(e: Entry, code: string)
    requires IsListedEntry(e) && e.designator != [] && IsFiveDigits(code)
    ensures ExtractExceptionalZips("ยกเว้น " + EntryText(e) + " ใช้รหัส " + code) == map[e.name := code]
  {
    var entries := [e];
    CellText(EntryText(e), code);
    assert NameList(entries, []) == EntryText(e);
    NamesOfDesignated(entries);
    assert NamesOf(entries) == [e.name];
    SingleListCell(entries, [], code);
    NameMapOfOne(e.name, code);
  }

  /** A two-name clause. */
  lemma TwoNameCell(e1: Entry, g: string, e2: Entry, code: string)
    requires IsListedEntry(e1) && IsListedEntry(e2) && e1.designator != [] && e2.designator != [] && IsFiveDigits(code)
    requires g != [] && IsConnective(g)
    ensures ExtractExceptionalZips("ยกเว้น " + EntryText(e1) + g + EntryText(e2) + " ใช้รหัส " + code)
            == map[e1.name := code, e2.name := code]
  {
    var entries := [e1, e2];
    var list := TwoNameList(e1, g, e2);
    CellText(list, code);
    NamesOfDesignated(entries);
    assert NamesOf(entries) == [e1.name, e2.name];
    SingleListCell(entries, [g], code);
    TwoNameMap(e1.name, e2.name, code);
  }

  /** A four-name clause. */
  lemma FourNameCell(e1: Entry, g1: string, e2: Entry, g2: string, e3: Entry, g3: string, e4: Entry, code: string)
    requires IsListedEntry(e1) && IsListedEntry(e2) && IsListedEntry(e3) && IsListedEntry(e4) && IsFiveDigits(code)
    requires e1.designator != [] && e2.designator != [] && e3.designator != [] && e4.designator != []
    requires g1 != [] && IsConnective(g1) && g2 != [] && IsConnective(g2) && g3 != [] && IsConnective(g3)
    ensures ExtractExceptionalZips("ยกเว้น " + EntryText(e1) + g1 + EntryText(e2) + g2 + EntryText(e3) + g3 + EntryText(e4) + " ใช้รหัส " + code)
            == map[e1.name := code, e2.name := code, e3.name := code, e4.name := code]
  {
    var entries := [e1, e2, e3, e4];
    var glues := [g1, g2, g3];
    var list := FourNameList(e1, g1, e2, g2, e3, g3, e4);
    CellText(list, code);
    NamesOfDesignated(entries);
    assert NamesOf(entries) == [e1.name, e2.name, e3.name, e4.name];
    SingleListCell(entries, glues, code);
    FourNameMap(e1.name, e2.name, e3.name, e4.name, code);
  }

  /** Two entries and their glue written out, as a list and after "ยกเว้น ". */
  lemma TwoNameList(e1: Entry, g: string, e2: Entry) returns (list: string)
    ensures list == NameList([e1, e2], [g])
    ensures "ยกเว้น " + EntryText(e1) + g + EntryText(e2) == "ยกเว้น " + list
  {
    list := EntryText(e1) + g + EntryText(e2);
    AppendAssoc("ยกเว้น ", EntryText(e1), g);
    AppendAssoc("ยกเว้น ", EntryText(e1) + g, EntryText(e2));
  }

  /** Four entries and three glues written out, as a list and after "ยกเว้น ". */
  lemma FourNameList(e1: Entry, g1: string, e2: Entry, g2: string, e3: Entry, g3: string, e4: Entry) returns (list: string)
    ensures list == NameList([e1, e2, e3, e4], [g1, g2, g3])
    ensures "ยกเว้น " + EntryText(e1) + g1 + EntryText(e2) + g2 + EntryText(e3) + g3 + EntryText(e4) == "ยกเว้น " + list
  {
    var t1, t2, t3, t4 := EntryText(e1), EntryText(e2), EntryText(e3), EntryText(e4);
    var p := "ยกเว้น ";
    var tail3 := t3 + g3 + t4;
    var tail2 := t2 + g2 + tail3;
    list := t1 + g1 + tail2;
    assert NameList([e1, e2, e3, e4][1..], [g1, g2, g3][1..]) == tail2 by {
      assert [e1, e2, e3, e4][1..][1..] == [e3, e4] && [g1, g2, g3][1..][1..] == [g3];
      assert NameList([e3, e4], [g3]) == tail3;
    }
    AppendAssoc(p, t1, g1);
    AppendAssoc(p, t1 + g1, t2);
    AppendAssoc(p, t1 + g1 + t2, g2);
    AppendAssoc(p, t1 + g1 + t2 + g2, t3);
    AppendAssoc(p, t1 + g1 + t2 + g2 + t3, g3);
    AppendAssoc(p, t1 + g1 + t2 + g2 + t3 + g3, t4);
    AppendAssoc(t1 + g1 + t2 + g2, t3 + g3, t4);
    AppendAssoc(t1 + g1 + t2 + g2, t3, g3);
    AppendAssoc(t1 + g1, t2 + g2, tail3);
    AppendAssoc(t1 + g1, t2, g2);
    AppendAssoc(t1, g1, tail2);
  }

  lemma NameMapOfOne(a: string, code: string)
    ensures (map n | n in [a] :: code) == map[a := code]
  {
  }

  lemma TwoNameMap(a: string, b: string, code: string)
    ensures (map n | n in [a, b] :: code) == map[a := code, b := code]
  {
  }

  lemma FourNameMap(a: string, b: string, c: string, d: string, code: string)
    ensures (map n | n in [a, b, c, d] :: code) == map[a := code, b := code, c := code, d := code]
  {
  }

  /** Two names joined by "และ": "ยกเว้น ตำบลอออและตำบลขขข ใช้รหัส 12345". */
  lemma TwoNamesJoinedByConjunction(cell: string)
    requires cell == "ยกเว้น " + "ตำบลอออ" + "และ" + "ตำบลขขข" + " ใช้รหัส " + "12345"
    ensures ExtractExceptionalZips(cell) == map["อออ" := "12345", "ขขข" := "12345"]
  {
    var e1, e2 := Entry(Tambon, "อออ"), Entry(Tambon, "ขขข");
    WordEntry(Tambon, "อออ");
    WordEntry(Tambon, "ขขข");
    assert IsConnective(Conjunction) by { assert Conjunction[3..] == []; }
    assert EntryText(e1) == "ตำบลอออ" && EntryText(e2) == "ตำบลขขข";
    TwoNameCell(e1, Conjunction, e2, "12345");
  }

  /** Four names joined by spaces and "และ": "ยกเว้น ตำบลอออ ตำบลขขข ตำบลจจจและตำบลกกก ใช้รหัส 12345". */
  lemma FourNamesJoinedBySpaces(cell: string)
    requires cell == "ยกเว้น " + "ตำบลอออ" + " " + "ตำบลขขข" + " " + "ตำบลจจจ" + "และ" + "ตำบลกกก" + " ใช้รหัส " + "12345"
    ensures ExtractExceptionalZips(cell) == map["อออ" := "12345", "ขขข" := "12345", "จจจ" := "12345", "กกก" := "12345"]
  {
    var e1, e2, e3, e4 := Entry(Tambon, "อออ"), Entry(Tambon, "ขขข"), Entry(Tambon, "จจจ"), Entry(Tambon, "กกก");
    WordEntry(Tambon, "อออ");
    WordEntry(Tambon, "ขขข");
    WordEntry(Tambon, "จจจ");
    WordEntry(Tambon, "กกก");
    assert IsConnective(" ") by { assert " "[1..] == []; }
    assert IsConnective(Conjunction) by { assert Conjunction[3..] == []; }
    assert EntryText(e1) == "ตำบลอออ" && EntryText(e2) == "ตำบลขขข" && EntryText(e3) == "ตำบลจจจ" && EntryText(e4) == "ตำบลกกก";
    FourNameCell(e1, " ", e2, " ", e3, Conjunction, e4, "12345");
  }

  /** The same four names with a space before "และ": "ยกเว้น ตำบลอออ ตำบลขขข ตำบลจจจ และตำบลกกก ใช้รหัส 12345". */
  lemma FourNamesWithSpacedConjunction(cell: string)
    requires cell == "ยกเว้น " + "ตำบลอออ" + " " + "ตำบลขขข" + " " + "ตำบลจจจ" + " และ" + "ตำบลกกก" + " ใช้รหัส " + "12345"
    ensures ExtractExceptionalZips(cell) == map["อออ" := "12345", "ขขข" := "12345", "จจจ" := "12345", "กกก" := "12345"]
  {
    var e1, e2, e3, e4 := Entry(Tambon, "อออ"), Entry(Tambon, "ขขข"), Entry(Tambon, "จจจ"), Entry(Tambon, "กกก");
    WordEntry(Tambon, "อออ");
    WordEntry(Tambon, "ขขข");
    WordEntry(Tambon, "จจจ");
    WordEntry(Tambon, "กกก");
    MixedListGlues();
    assert EntryText(e1) == "ตำบลอออ" && EntryText(e2) == "ตำบลขขข" && EntryText(e3) == "ตำบลจจจ" && EntryText(e4) == "ตำบลกกก";
    FourNameCell(e1, " ", e2, " ", e3, " และ", e4, "12345");
  }

  /** One name: "ยกเว้น ตำบลลลล ใช้รหัส 12345". */
  lemma OneNameClause(cell: string)
    requires cell == "ยกเว้น " + "ตำบลลลล" + " ใช้รหัส " + "12345"
    ensures ExtractExceptionalZips(cell) == map["ลลล" := "12345"]
  {
    var e := Entry(Tambon, "ลลล");
    WordEntry(Tambon, "ลลล");
    assert EntryText(e) == "ตำบลลลล";
    OneNameCell(e, "12345");
  }

  /** One name with a post-office annotation: "ยกเว้น ตำบลลลล ใช้รหัส 12345 (ไปรษณีย์นครนายก)". */
  lemma AnnotatedOneNameClause(cell: string)
    requires cell == "ยกเว้น " + "ตำบลลลล" + " ใช้รหัส " + "12345" + " " + "(ไปรษณีย์" + "นครนายก" + ")"
    ensures ExtractExceptionalZips(cell) == map["ลลล" := "12345"]
  {
    var e := Entry(Tambon, "ลลล");
    WordEntry(Tambon, "ลลล");
    assert EntryText(e) == "ตำบลลลล";
    assert NameList([e], []) == "ตำบลลลล";
    assert NamesOf([e]) == ["ลลล"];
    var head := "ยกเว้น " + "ตำบลลลล" + " ใช้รหัส " + "12345" + " ";
    var place := "นครนายก";
    assert ')' !in place by {
      forall k | 0 <= k < |place| ensures place[k] != ')' { assert place[k] >= 'ก'; }
    }
    WholeAnnotation(place);
    CellText("ตำบลลลล", "12345");
    AppendAssoc(head, PostOfficeOpen, place);
    AppendAssoc(head, PostOfficeOpen + place, ")");
    AnnotatedListCell([e], [], "12345", PostOfficeOpen + place + ")");
    NameMapOfOne("ลลล", "12345");
  }

  lemma ThreeNameMap(a: string, b: string, c: string, code: string)
    ensures (map n | n in [a, b, c] :: code) == map[a := code, b := code, c := code]
  {
  }

  /**
   * Designated names mixed with other words, between two annotations:
   * "(ไปรษณีย์คลองจั่น) ยกเว้น แขวงนวลจันทร์ แขวงนวมินทร์ เฉพาะซอยนวมินทร์ 103-111
   * และแขวงคลองกุ่ม เฉพาะซอยนวมินทร์ 64-68, 74 ใช้รหัส 10230 (ไปรษณีย์จรเข้บัว)".
   * Only the three names after "แขวง" get the code.
   */
  lemma MixedListBetweenNotes(cell: string)
    requires cell == "(ไปรษณีย์" + "คลองจั่น" + ")" + " " + "ยกเว้น " + ("แขวง" + "นวลจันทร์") + " " + ("แขวง" + "นวมินทร์")
                     + " " + "เฉพาะซอยนวมินทร์" + " " + "103-111" + " และ" + ("แขวง" + "คลองกุ่ม") + " " + "เฉพาะซอยนวมินทร์"
                     + " " + "64-68," + " " + "74" + " ใช้รหัส " + "10230" + " " + "(ไปรษณีย์" + "จรเข้บัว" + ")"
    ensures ExtractExceptionalZips(cell) == map["นวลจันทร์" := "10230", "นวมินทร์" := "10230", "คลองกุ่ม" := "10230"]
  {
    MixedListWords();
    MixedListPlaces();
    KhwaengMixedCell(cell, "คลองจั่น", "นวลจันทร์", "นวมินทร์", "เฉพาะซอยนวมินทร์", "103-111", "คลองกุ่ม", "64-68,", "74",
                     "10230", "จรเข้บัว");
  }

  /**
   * Three names after "แขวง" mixed with four other words (the first written
   * twice), between two post-office annotations: the three names, and only
   * they, get the code.
   */
  lemma KhwaengMixedCell(cell: string, place: string, n1: string, n2: string, w3: string, w4: string, n5: string,
                         w7: string, w8: string, code: string, place': string)
    requires IsListedEntry(Entry(Khwaeng, n1)) && IsListedEntry(Entry(Khwaeng, n2)) && IsListedEntry(Entry(Khwaeng, n5))
    requires IsListedEntry(Entry([], w3)) && IsListedEntry(Entry([], w4)) && IsListedEntry(Entry([], w7)) && IsListedEntry(Entry([], w8))
    requires IsFiveDigits(code)
    requires place != [] && (forall k :: 0 <= k < |place| ==> 'ก' <= place[k])
    requires place' != [] && (forall k :: 0 <= k < |place'| ==> 'ก' <= place'[k])
    requires cell == "(ไปรษณีย์" + place + ")" + " " + "ยกเว้น " + ("แขวง" + n1) + " " + ("แขวง" + n2)
                     + " " + w3 + " " + w4 + " และ" + ("แขวง" + n5) + " " + w3
                     + " " + w7 + " " + w8 + " ใช้รหัส " + code + " " + "(ไปรษณีย์" + place' + ")"
    ensures ExtractExceptionalZips(cell) == map[n1 := code, n2 := code, n5 := code]
  {
    var e1, e2, e3, e4 := Entry(Khwaeng, n1), Entry(Khwaeng, n2), Entry([], w3), Entry([], w4);
    var e5, e7, e8 := Entry(Khwaeng, n5), Entry([], w7), Entry([], w8);
    MixedCellText(cell, place, n1, n2, w3, w4, n5, w7, w8, code, place');
    MixedListGlues();
    EightWordsBetweenNotes(cell, place, e1, " ", e2, " ", e3, " ", e4, " และ", e5, " ", e3, " ", e7, " ", e8, code, place');
    MixedNames(e1, e2, e3, e4, e5, e7, e8);
    ThreeNameMap(n1, n2, n5, code);
  }

  /** The mixed-list cell written with entries. */
  lemma MixedCellText(cell: string, place: string, n1: string, n2: string, w3: string, w4: string, n5: string,
                      w7: string, w8: string, code: string, place': string)
    requires cell == "(ไปรษณีย์" + place + ")" + " " + "ยกเว้น " + ("แขวง" + n1) + " " + ("แขวง" + n2)
                     + " " + w3 + " " + w4 + " และ" + ("แขวง" + n5) + " " + w3
                     + " " + w7 + " " + w8 + " ใช้รหัส " + code + " " + "(ไปรษณีย์" + place' + ")"
    ensures cell == PostOfficeOpen + place + ")" + " " + "ยกเว้น " + EntryText(Entry(Khwaeng, n1)) + " " + EntryText(Entry(Khwaeng, n2))
                    + " " + EntryText(Entry([], w3)) + " " + EntryText(Entry([], w4)) + " และ" + EntryText(Entry(Khwaeng, n5))
                    + " " + EntryText(Entry([], w3)) + " " + EntryText(Entry([], w7)) + " " + EntryText(Entry([], w8))
                    + " ใช้รหัส " + code + " " + PostOfficeOpen + place' + ")"
  {
    assert EntryText(Entry([], w3)) == w3 && EntryText(Entry([], w4)) == w4;
    assert EntryText(Entry([], w7)) == w7 && EntryText(Entry([], w8)) == w8;
  }

  /** Eight words and their glues written between two post-office annotations. */
  lemma EightWordsBetweenNotes(cell: string, place: string, e1: Entry, g1: string, e2: Entry, g2: string, e3: Entry, g3: string,
                               e4: Entry, g4: string, e5: Entry, g5: string, e6: Entry, g6: string, e7: Entry, g7: string, e8: Entry,
                               code: string, place': string)
    requires IsListedEntry(e1) && IsListedEntry(e2) && IsListedEntry(e3) && IsListedEntry(e4)
    requires IsListedEntry(e5) && IsListedEntry(e6) && IsListedEntry(e7) && IsListedEntry(e8)
    requires var glues := [g1, g2, g3, g4, g5, g6, g7];
             forall i :: 0 <= i < |glues| ==> glues[i] != [] && IsConnective(glues[i])
    requires IsFiveDigits(code)
    requires place != [] && (forall k :: 0 <= k < |place| ==> 'ก' <= place[k])
    requires place' != [] && (forall k :: 0 <= k < |place'| ==> 'ก' <= place'[k])
    requires cell == PostOfficeOpen + place + ")" + " " + "ยกเว้น " + EntryText(e1) + g1 + EntryText(e2) + g2 + EntryText(e3) + g3
                     + EntryText(e4) + g4 + EntryText(e5) + g5 + EntryText(e6) + g6 + EntryText(e7) + g7 + EntryText(e8)
                     + " ใช้รหัส " + code + " " + PostOfficeOpen + place' + ")"
    ensures ExtractExceptionalZips(cell) == map n | n in NamesOf([e1, e2, e3, e4, e5, e6, e7, e8]) :: code
  {
    var p := PostOfficeOpen + place + ")" + " " + "ยกเว้น ";
    EightListed(e1, e2, e3, e4, e5, e6, e7, e8);
    EightWritten(p, e1, g1, e2, g2, e3, g3, e4, g4, e5, g5, e6, g6, e7, g7, e8);
    var written := p + EntryText(e1) + g1 + EntryText(e2) + g2 + EntryText(e3) + g3
                   + EntryText(e4) + g4 + EntryText(e5) + g5 + EntryText(e6) + g6 + EntryText(e7) + g7 + EntryText(e8);
    var head := written + " ใช้รหัส " + code + " ";
    AppendAssoc(head, PostOfficeOpen, place');
    AppendAssoc(head, PostOfficeOpen + place', ")");
    NotedListWritten(place, written, [e1, e2, e3, e4, e5, e6, e7, e8], [g1, g2, g3, g4, g5, g6, g7], code, place');
  }

  /** Eight listed words make a sequence of listed words. */
  lemma EightListed(e1: Entry, e2: Entry, e3: Entry, e4: Entry, e5: Entry, e6: Entry, e7: Entry, e8: Entry)
    requires IsListedEntry(e1) && IsListedEntry(e2) && IsListedEntry(e3) && IsListedEntry(e4)
    requires IsListedEntry(e5) && IsListedEntry(e6) && IsListedEntry(e7) && IsListedEntry(e8)
    ensures var entries := [e1, e2, e3, e4, e5, e6, e7, e8];
            forall i :: 0 <= i < |entries| ==> IsListedEntry(entries[i])
  {
    var t8 := [e8];
    var t7 := [e7] + t8;
    var t6 := [e6] + t7;
    var t5 := [e5] + t6;
    var t4 := [e4] + t5;
    var t3 := [e3] + t4;
    var t2 := [e2] + t3;
    ListedCons(e7, t8); ListedCons(e6, t7); ListedCons(e5, t6); ListedCons(e4, t5);
    ListedCons(e3, t4); ListedCons(e2, t3); ListedCons(e1, t2);
    assert [e1] + t2 == [e1, e2, e3, e4, e5, e6, e7, e8];
  }

  /** Eight words and seven glues written one after the other after `p` are `p` followed by their list. */
  lemma EightWritten(p: string, e1: Entry, g1: string, e2: Entry, g2: string, e3: Entry, g3: string, e4: Entry, g4: string,
                     e5: Entry, g5: string, e6: Entry, g6: string, e7: Entry, g7: string, e8: Entry)
    ensures p + EntryText(e1) + g1 + EntryText(e2) + g2 + EntryText(e3) + g3 + EntryText(e4) + g4 + EntryText(e5) + g5
              + EntryText(e6) + g6 + EntryText(e7) + g7 + EntryText(e8)
            == p + NameList([e1, e2, e3, e4, e5, e6, e7, e8], [g1, g2, g3, g4, g5, g6, g7])
  {
    var q4 := p + EntryText(e1) + g1 + EntryText(e2) + g2 + EntryText(e3) + g3 + EntryText(e4) + g4;
    WrittenFour(p, e1, g1, e2, g2, e3, g3, e4, g4, [e5, e6, e7, e8], [g5, g6, g7]);
    WrittenLastFour(q4, e5, g5, e6, g6, e7, g7, e8);
    assert [e1, e2, e3, e4] + [e5, e6, e7, e8] == [e1, e2, e3, e4, e5, e6, e7, e8];
    assert [g1, g2, g3, g4] + [g5, g6, g7] == [g1, g2, g3, g4, g5, g6, g7];
  }

  /** Four entries, each with its glue, written in front of a list. */
  lemma WrittenFour(p: string, e1: Entry, g1: string, e2: Entry, g2: string, e3: Entry, g3: string, e4: Entry, g4: string,
                    entries: seq<Entry>, glues: seq<string>)
    requires |entries| == |glues| + 1
    ensures WrittenAfter(p, [e1, e2, e3, e4] + entries, [g1, g2, g3, g4] + glues)
            == WrittenAfter(p + EntryText(e1) + g1 + EntryText(e2) + g2 + EntryText(e3) + g3 + EntryText(e4) + g4, entries, glues)
  {
    var q2 := p + EntryText(e1) + g1 + EntryText(e2) + g2;
    calc {
      WrittenAfter(p, [e1, e2, e3, e4] + entries, [g1, g2, g3, g4] + glues);
      { Cons2Split(e1, e2, e3, e4, entries);
        Cons2Split(g1, g2, g3, g4, glues); }
      WrittenAfter(p, [e1, e2] + ([e3, e4] + entries), [g1, g2] + ([g3, g4] + glues));
      { WrittenTwo(p, e1, g1, e2, g2, [e3, e4] + entries, [g3, g4] + glues); }
      WrittenAfter(q2, [e3, e4] + entries, [g3, g4] + glues);
      { WrittenTwo(q2, e3, g3, e4, g4, entries, glues); }
      WrittenAfter(q2 + EntryText(e3) + g3 + EntryText(e4) + g4, entries, glues);
    }
  }

  /** Four leading elements regrouped as two and two. */
  lemma Cons2Split<T>(a: T, b: T, c: T, d: T, rest: seq<T>)
    ensures [a, b, c, d] + rest == [a, b] + ([c, d] + rest)
  { }

  /** Two entries, each with its glue, written in front of a list. */
  lemma WrittenTwo(p: string, e1: Entry, g1: string, e2: Entry, g2: string, entries: seq<Entry>, glues: seq<string>)
    requires |entries| == |glues| + 1
    ensures WrittenAfter(p, [e1, e2] + entries, [g1, g2] + glues)
            == WrittenAfter(p + EntryText(e1) + g1 + EntryText(e2) + g2, entries, glues)
  {
    WrittenStep(p, e1, g1, [e2] + entries, [g2] + glues);
    WrittenStep(p + EntryText(e1) + g1, e2, g2, entries, glues);
    assert [e1] + ([e2] + entries) == [e1, e2] + entries;
    assert [g1] + ([g2] + glues) == [g1, g2] + glues;
  }

  /** The last four entries and their glues written out. */
  lemma WrittenLastFour(p: string, e1: Entry, g1: string, e2: Entry, g2: string, e3: Entry, g3: string, e4: Entry)
    ensures WrittenAfter(p, [e1, e2, e3, e4], [g1, g2, g3])
            == p + EntryText(e1) + g1 + EntryText(e2) + g2 + EntryText(e3) + g3 + EntryText(e4)
  {
    var q1 := p + EntryText(e1) + g1;
    var q2 := q1 + EntryText(e2) + g2;
    var q3 := q2 + EntryText(e3) + g3;
    WrittenStep(p, e1, g1, [e2] + ([e3] + [e4]), [g2] + [g3]);
    WrittenStep(q1, e2, g2, [e3] + [e4], [g3]);
    WrittenStep(q2, e3, g3, [e4], []);
    assert WrittenAfter(q3, [e4], []) == q3 + EntryText(e4);
    assert [e1] + ([e2] + ([e3] + [e4])) == [e1, e2, e3, e4];
    assert [g1] + ([g2] + [g3]) == [g1, g2, g3];
  }

  /**
   * A list written after a post-office annotation and "ยกเว้น ", then
   * " ใช้รหัส ", a code, a space and another annotation.
   */
  lemma NotedListWritten(place: string, written: string, entries: seq<Entry>, glues: seq<string>, code: string, place': string)
    requires |entries| == |glues| + 1
    requires forall i :: 0 <= i < |entries| ==> IsListedEntry(entries[i])
    requires forall i :: 0 <= i < |glues| ==> glues[i] != [] && IsConnective(glues[i])
    requires IsFiveDigits(code)
    requires place != [] && (forall k :: 0 <= k < |place| ==> 'ก' <= place[k])
    requires place' != [] && (forall k :: 0 <= k < |place'| ==> 'ก' <= place'[k])
    requires written == PostOfficeOpen + place + ")" + " " + "ยกเว้น " + NameList(entries, glues)
    ensures ExtractExceptionalZips(written + " ใช้รหัส " + code + " " + (PostOfficeOpen + place' + ")"))
            == map n | n in NamesOf(entries) :: code
  {
    var before, after := PostOfficeOpen + place + ")", PostOfficeOpen + place' + ")";
    ThaiAnnotation(place);
    ThaiAnnotation(place');
    NotedListCell(entries, glues, code, before, after);
    CellAroundList(before, NameList(entries, glues), code, after);
  }

  /** The glues of the mixed list are spaces and "และ". */
  lemma MixedListGlues()
    ensures var glues := [" ", " ", " ", " และ", " ", " ", " "];
            forall i :: 0 <= i < |glues| ==> glues[i] != [] && IsConnective(glues[i])
  {
    assert IsConnective(" ") by { assert " "[1..] == []; }
    assert IsConnective(" และ") by { assert " และ"[1..] == Conjunction && Conjunction[3..] == []; }
  }

  /** Of the eight words, only the three with a designator give names. */
  lemma MixedNames(e1: Entry, e2: Entry, e3: Entry, e4: Entry, e5: Entry, e7: Entry, e8: Entry)
    requires e1.designator != [] && e2.designator != [] && e5.designator != []
    requires e3.designator == [] && e4.designator == [] && e7.designator == [] && e8.designator == []
    ensures NamesOf([e1, e2, e3, e4, e5, e3, e7, e8]) == [e1.name, e2.name, e5.name]
  {
    var tail := [e4, e5, e3, e7, e8];
    MixedTailNames(e4, e5, e3, e7, e8);
    MixedHeadNames(e1, e2, e3, tail);
    assert [e1, e2, e3] + tail == [e1, e2, e3, e4, e5, e3, e7, e8];
  }

  lemma MixedHeadNames(e1: Entry, e2: Entry, e3: Entry, tail: seq<Entry>)
    requires e1.designator != [] && e2.designator != [] && e3.designator == []
    ensures NamesOf([e1, e2, e3] + tail) == [e1.name, e2.name] + NamesOf(tail)
  {
    NamesOfCons(e3, tail);
    NamesOfCons(e2, [e3] + tail);
    NamesOfCons(e1, [e2] + ([e3] + tail));
    assert [e1] + ([e2] + ([e3] + tail)) == [e1, e2, e3] + tail;
  }

  lemma MixedTailNames(e4: Entry, e5: Entry, e3: Entry, e7: Entry, e8: Entry)
    requires e5.designator != []
    requires e3.designator == [] && e4.designator == [] && e7.designator == [] && e8.designator == []
    ensures NamesOf([e4, e5, e3, e7, e8]) == [e5.name]
  {
    NamesOfCons(e8, []);
    NamesOfCons(e7, [e8]);
    NamesOfCons(e3, [e7] + [e8]);
    NamesOfCons(e5, [e3] + ([e7] + [e8]));
    NamesOfCons(e4, [e5] + ([e3] + ([e7] + [e8])));
    assert [e4] + ([e5] + ([e3] + ([e7] + [e8]))) == [e4, e5, e3, e7, e8];
  }

  /** The words of the mixed list are listed entries. */
  lemma MixedListWords()
    ensures IsListedEntry(Entry(Khwaeng, "นวลจันทร์")) && IsListedEntry(Entry(Khwaeng, "นวมินทร์"))
    ensures IsListedEntry(Entry([], "เฉพาะซอยนวมินทร์")) && IsListedEntry(Entry([], "103-111"))
    ensures IsListedEntry(Entry(Khwaeng, "คลองกุ่ม")) && IsListedEntry(Entry([], "64-68,")) && IsListedEntry(Entry([], "74"))
  {
    MixedListNamesListed();
    MixedListOthersListed();
  }

  lemma MixedListNamesListed()
    ensures IsListedEntry(Entry(Khwaeng, "นวลจันทร์")) && IsListedEntry(Entry(Khwaeng, "นวมินทร์"))
    ensures IsListedEntry(Entry(Khwaeng, "คลองกุ่ม"))
  {
    WordEntry(Khwaeng, "นวลจันทร์");
    WordEntry(Khwaeng, "นวมินทร์");
    WordEntry(Khwaeng, "คลองกุ่ม");
  }

  lemma MixedListOthersListed()
    ensures IsListedEntry(Entry([], "เฉพาะซอยนวมินทร์")) && IsListedEntry(Entry([], "103-111"))
    ensures IsListedEntry(Entry([], "64-68,")) && IsListedEntry(Entry([], "74"))
  {
    WordEntry([], "เฉพาะซอยนวมินทร์");
    WordEntry([], "103-111");
    WordEntry([], "64-68,");
    WordEntry([], "74");
  }

  /** The two place names of the mixed-list cell are Thai letters. */
  lemma MixedListPlaces()
    ensures var place := "คลองจั่น"; place != [] && forall k :: 0 <= k < |place| ==> 'ก' <= place[k]
    ensures var place := "จรเข้บัว"; place != [] && forall k :: 0 <= k < |place| ==> 'ก' <= place[k]
  {
  }

  /** The cell as written around the list is the cell the parser lemmas speak of. */
  lemma CellAroundList(before: string, list: string, code: string, after: string)
    ensures before + " " + "ยกเว้น " + list + " ใช้รหัส " + code + " " + after
            == before + " " + ExclusionMarker + " " + list + " " + CodeLead + code + " " + after
  {
    assert "ยกเว้น " == ExclusionMarker + " ";
    assert " ใช้รหัส " == " " + CodeLead;
  }
}
