/**
 * The address tokenisers of the builder: an address is a line of
 * space-separated words ending "... <subdistrict> <district> <province> <zip>",
 * and each extractor reverses the list of words and picks one by position.
 */
module AddressTokens {
  import opened Strings

  const ProvinceMark: string := "จ."
  const DistrictMark: string := "อ."
  const DistrictKhet: string := "เขต"
  const DistrictAmphoe: string := "อำเภอ"
  const SubdistrictMark: string := "ต."
  const SubdistrictKhwaeng: string := "แขวง"
  const SubdistrictTambon: string := "ตำบล"

  /** `addr.split(" ")`: the words of an address, empty ones included. */
  function Words(addr: string): seq<string> {
    Split(addr, ' ')
  }

  // ---------------------------------------------------------------------------
  // Reversing the word list in place
  // ---------------------------------------------------------------------------

  /** `s` read back to front. */
  function Reversed<T>(s: seq<T>): (r: seq<T>)
    ensures |r| == |s|
    ensures forall i :: 0 <= i < |s| ==> r[i] == s[|s| - 1 - i]
  {
    if s == [] then [] else Reversed(s[1..]) + [s[0]]
  }

  /** `list.reverse()` */
  method ReverseInPlace<T>(a: array<T>)
    modifies a
    ensures a[..] == Reversed(old(a[..]))
  {
    var i := 0;
    var j := a.Length - 1;
    while i < j
      invariant 0 <= i <= a.Length && j == a.Length - 1 - i
      invariant i > j ==> i == j + 1 || (i == 0 && j == -1)
      invariant forall k :: 0 <= k < i ==> a[k] == old(a[a.Length - 1 - k])
      invariant forall k :: j < k < a.Length ==> a[k] == old(a[a.Length - 1 - k])
      invariant forall k :: i <= k <= j ==> a[k] == old(a[k])
    {
      a[i], a[j] := a[j], a[i];
      i := i + 1;
      j := j - 1;
    }
  }

  /** The words of `addr`, last one first, in a fresh array. */
  method ReversedWords(addr: string) returns (tokens: array<string>)
    ensures fresh(tokens)
    ensures tokens[..] == Reversed(Words(addr))
  {
    var words := Words(addr);
    tokens := new string[|words|](i requires 0 <= i < |words| => words[i]);
    assert tokens[..] == words;
    ReverseInPlace(tokens);
  }

  // ---------------------------------------------------------------------------
  // extract_province / extract_district / extract_subdistrict
  // ---------------------------------------------------------------------------

  /** The province word with a leading "จ." removed. */
  function ProvinceName(word: string): (r: string)
    ensures |r| <= |word| && EndsWith(word, r)
    ensures StartsWith(word, ProvinceMark) <==> word == ProvinceMark + r
  {
    if StartsWith(word, ProvinceMark) then word[2..] else word
  }

  /** The province of an address: the second word from the end, without "จ.". */
  function ProvinceOf(addr: string): string
    requires |Words(addr)| >= 2
  {
    ProvinceName(Words(addr)[|Words(addr)| - 2])
  }

  method ExtractProvince(addr: string) returns (province: string)
    requires |Words(addr)| >= 2
    ensures province == ProvinceOf(addr)
  {
    var tokens := ReversedWords(addr);
    province := tokens[1];
    if StartsWith(province, ProvinceMark) {
      province := province[2..];
    }
  }

  /** The district word with the first matching designator of "อ.", "เขต", "อำเภอ" removed. */
  function DistrictName(word: string): (r: string)
    ensures |r| <= |word| && EndsWith(word, r)
    ensures StartsWith(word, DistrictMark) ==> word == DistrictMark + r
    ensures !StartsWith(word, DistrictMark) && StartsWith(word, DistrictKhet) ==> word == DistrictKhet + r
    ensures !StartsWith(word, DistrictMark) && !StartsWith(word, DistrictKhet) && StartsWith(word, DistrictAmphoe) ==> word == DistrictAmphoe + r
    ensures !StartsWith(word, DistrictMark) && !StartsWith(word, DistrictKhet) && !StartsWith(word, DistrictAmphoe) ==> r == word
  {
    if StartsWith(word, DistrictMark) then word[2..]
    else if StartsWith(word, DistrictKhet) then word[3..]
    else if StartsWith(word, DistrictAmphoe) then word[5..]
    else word
  }

  /** The district of an address: the third word from the end, without its designator. */
  function DistrictOf(addr: string): string
    requires |Words(addr)| >= 3
  {
    DistrictName(Words(addr)[|Words(addr)| - 3])
  }

  method ExtractDistrict(addr: string) returns (district: string)
    requires |Words(addr)| >= 3
    ensures district == DistrictOf(addr)
  {
    var tokens := ReversedWords(addr);
    ghost var words := Words(addr);
    district := tokens[2];
    assert district == words[|words| - 3];
    if StartsWith(district, DistrictMark) {
      return district[2..];
    }
    if StartsWith(district, DistrictKhet) {
      return district[3..];
    }
    if StartsWith(district, DistrictAmphoe) {
      return district[5..];
    }
  }

  /** The text after the first occurrence of `w` in `word`, if `w` occurs. */
  function After(word: string, w: string): (r: string)
    requires Contains(word, w)
    ensures exists i: nat :: OccursAt(word, w, i) && r == word[i + |w|..]
  {
    var pos := Find(word, w);
    word[pos + |w|..]
  }

  /**
   * The subdistrict word reduced to a name: a leading "ต.", "แขวง" or
   * "ตำบล" is removed; otherwise the text after the first "ต.", then the
   * first "แขวง", then the first "ตำบล"; otherwise the word itself.
   */
  function SubdistrictName(word: string): (r: string)
    ensures |r| <= |word| && EndsWith(word, r)
  {
    if StartsWith(word, SubdistrictMark) then word[2..]
    else if StartsWith(word, SubdistrictKhwaeng) then word[4..]
    else if StartsWith(word, SubdistrictTambon) then word[4..]
    else if Contains(word, SubdistrictMark) then After(word, SubdistrictMark)
    else if Contains(word, SubdistrictKhwaeng) then After(word, SubdistrictKhwaeng)
    else if Contains(word, SubdistrictTambon) then After(word, SubdistrictTambon)
    else word
  }

  /** The subdistrict word of an address: the fourth from the end, or "" with three words or fewer. */
  function SubdistrictWord(addr: string): string {
    var words := Words(addr);
    if |words| > 3 then words[|words| - 4] else ""
  }

  function SubdistrictOf(addr: string): string {
    SubdistrictName(SubdistrictWord(addr))
  }

  method ExtractSubdistrict(addr: string) returns (subdistrict: string)
    ensures subdistrict == SubdistrictOf(addr)
  {
    var tokens := ReversedWords(addr);
    subdistrict := "";
    ghost var words := Words(addr);
    if tokens.Length > 3 {
      subdistrict := tokens[3];
      assert subdistrict == words[|words| - 4];
    }
    assert subdistrict == SubdistrictWord(addr);
    if StartsWith(subdistrict, SubdistrictMark) {
      return subdistrict[2..];
    }
    if StartsWith(subdistrict, SubdistrictKhwaeng) {
      return subdistrict[4..];
    }
    if StartsWith(subdistrict, SubdistrictTambon) {
      return subdistrict[4..];
    }
    var pos := Find(subdistrict, SubdistrictMark);
    if pos != -1 {
      return subdistrict[pos + 2..];
    }
    pos := Find(subdistrict, SubdistrictKhwaeng);
    if pos != -1 {
      return subdistrict[pos + 4..];
    }
    pos := Find(subdistrict, SubdistrictTambon);
    if pos != -1 {
      return subdistrict[pos + 4..];
    }
  }

  // ---------------------------------------------------------------------------
  // What the extractors give on a well-formed address
  // ---------------------------------------------------------------------------

  /** A word: no space inside. */
  predicate IsWord(w: string) {
    ' ' !in w
  }

  /**
   * The address "<lead...> <subdistrict> <district> <province> <zip>" as the
   * builder receives it: its words joined by single spaces.
   */
  function Address(lead: seq<string>, subdistrict: string, district: string, province: string, zip: string): string {
    Join(lead + [subdistrict, district, province, zip], ' ')
  }

  lemma AddressWords(lead: seq<string>, subdistrict: string, district: string, province: string, zip: string)
    requires forall k :: 0 <= k < |lead| ==> IsWord(lead[k])
    requires IsWord(subdistrict) && IsWord(district) && IsWord(province) && IsWord(zip)
    ensures Words(Address(lead, subdistrict, district, province, zip)) == lead + [subdistrict, district, province, zip]
  {
    SplitOfJoin(lead + [subdistrict, district, province, zip], ' ');
  }

  /** The province written "จ.<name>" is read back as the name. */
  lemma ProvinceRoundTrip(lead: seq<string>, subdistrict: string, district: string, name: string, zip: string)
    requires forall k :: 0 <= k < |lead| ==> IsWord(lead[k])
    requires IsWord(subdistrict) && IsWord(district) && IsWord(name) && IsWord(zip)
    ensures |Words(Address(lead, subdistrict, district, ProvinceMark + name, zip))| >= 2
    ensures ProvinceOf(Address(lead, subdistrict, district, ProvinceMark + name, zip)) == name
  {
    AddressWords(lead, subdistrict, district, ProvinceMark + name, zip);
  }

  /** A district written "อำเภอ<name>" is read back as the name, and likewise with "อ." and "เขต". */
  lemma DistrictRoundTrip(lead: seq<string>, subdistrict: string, designator: string, name: string, province: string, zip: string)
    requires designator == DistrictMark || designator == DistrictKhet || designator == DistrictAmphoe
    requires forall k :: 0 <= k < |lead| ==> IsWord(lead[k])
    requires IsWord(subdistrict) && IsWord(name) && IsWord(province) && IsWord(zip)
    ensures |Words(Address(lead, subdistrict, designator + name, province, zip))| >= 3
    ensures DistrictOf(Address(lead, subdistrict, designator + name, province, zip)) == name
  {
    var word := designator + name;
    assert IsWord(word) by {
      assert ' ' !in designator;
    }
    AddressWords(lead, subdistrict, word, province, zip);
    assert word[..|designator|] == designator;
    assert word[0] == designator[0] && word[1] == designator[1];
  }

  /** A subdistrict written "<designator><name>" is read back as the name. */
  lemma SubdistrictRoundTrip(lead: seq<string>, designator: string, name: string, district: string, province: string, zip: string)
    requires designator == SubdistrictMark || designator == SubdistrictKhwaeng || designator == SubdistrictTambon
    requires forall k :: 0 <= k < |lead| ==> IsWord(lead[k])
    requires IsWord(name) && IsWord(district) && IsWord(province) && IsWord(zip)
    ensures SubdistrictOf(Address(lead, designator + name, district, province, zip)) == name
  {
    var word := designator + name;
    assert IsWord(word) by {
      assert ' ' !in designator;
    }
    AddressWords(lead, word, district, province, zip);
    DesignatedSubdistrictName(designator, name);
  }

  /** A leading designator is all that is removed. */
  lemma DesignatedSubdistrictName(designator: string, name: string)
    requires designator == SubdistrictMark || designator == SubdistrictKhwaeng || designator == SubdistrictTambon
    ensures SubdistrictName(designator + name) == name
  {
    var word := designator + name;
    assert word[..|designator|] == designator;
    assert word[|designator|..] == name;
    assert word[0] == designator[0] && word[1] == designator[1];
  }

  /** A word carrying no designator anywhere is kept whole. */
  lemma UndesignatedSubdistrictKept(word: string)
    requires !Contains(word, SubdistrictMark) && !Contains(word, SubdistrictKhwaeng) && !Contains(word, SubdistrictTambon)
    ensures SubdistrictName(word) == word
  {
    if StartsWith(word, SubdistrictMark) { assert OccursAt(word, SubdistrictMark, 0); }
    if StartsWith(word, SubdistrictKhwaeng) { assert OccursAt(word, SubdistrictKhwaeng, 0); }
    if StartsWith(word, SubdistrictTambon) { assert OccursAt(word, SubdistrictTambon, 0); }
  }

  /** A designator inside a word ("หมู่3ต.<name>"): the text after its first "ต." is kept. */
  lemma EmbeddedMarkSubdistrict(front: string, name: string)
    requires front != [] && !Contains(front, SubdistrictMark)
    requires !StartsWith(front + SubdistrictMark + name, SubdistrictKhwaeng)
    requires !StartsWith(front + SubdistrictMark + name, SubdistrictTambon)
    ensures SubdistrictName(front + SubdistrictMark + name) == name
  {
    var word := front + SubdistrictMark + name;
    assert OccursAt(word, SubdistrictMark, |front|);
    forall j: nat | j < |front| ensures !OccursAt(word, SubdistrictMark, j) {
      if j + 1 < |front| {
        assert word[j..j + 2] == front[j..j + 2];
        assert !OccursAt(front, SubdistrictMark, j);
      } else {
        assert word[j + 1] == SubdistrictMark[0];
        assert SubdistrictMark[1] != SubdistrictMark[0];
      }
    }
    assert !StartsWith(word, SubdistrictMark) by {
      assert !OccursAt(word, SubdistrictMark, 0);
    }
    assert word[|front| + 2..] == name;
  }

  /**
   * `w` right after a text that does not hold it is found there, when `w`'s
   * first character does not come back later in `w` (so no occurrence can
   * straddle the join).
   */
  lemma FirstOccurrenceAfter(front: string, w: string, name: string)
    requires w != [] && !Contains(front, w)
    requires forall k :: 0 < k < |w| ==> w[k] != w[0]
    ensures Find(front + w + name, w) == |front|
  {
    var word := front + w + name;
    assert word[|front|..|front| + |w|] == w;
    assert OccursAt(word, w, |front|);
    forall j: nat | j < |front| ensures !OccursAt(word, w, j) {
      if j + |w| <= |front| {
        assert word[j..j + |w|] == front[j..j + |w|];
        assert !OccursAt(front, w, j);
      } else if j + |w| <= |word| {
        var k := |front| - j;
        assert word[j..j + |w|][k] == word[|front|] == w[0] != w[k];
      }
    }
  }

  /** "แขวง" inside a word without "ต.": the text after its first "แขวง" is kept. */
  lemma EmbeddedKhwaengSubdistrict(front: string, name: string)
    requires front != [] && !Contains(front, SubdistrictKhwaeng)
    requires !Contains(front + SubdistrictKhwaeng + name, SubdistrictMark)
    requires !StartsWith(front + SubdistrictKhwaeng + name, SubdistrictTambon)
    ensures SubdistrictName(front + SubdistrictKhwaeng + name) == name
  {
    var word := front + SubdistrictKhwaeng + name;
    FirstOccurrenceAfter(front, SubdistrictKhwaeng, name);
    assert !StartsWith(word, SubdistrictMark) by { assert !OccursAt(word, SubdistrictMark, 0); }
    assert !StartsWith(word, SubdistrictKhwaeng) by { assert !OccursAt(word, SubdistrictKhwaeng, 0); }
    assert word[|front| + 4..] == name;
  }

  /** "ตำบล" inside a word with neither "ต." nor "แขวง": the text after its first "ตำบล" is kept. */
  lemma EmbeddedTambonSubdistrict(front: string, name: string)
    requires front != [] && !Contains(front, SubdistrictTambon)
    requires !Contains(front + SubdistrictTambon + name, SubdistrictMark)
    requires !Contains(front + SubdistrictTambon + name, SubdistrictKhwaeng)
    ensures SubdistrictName(front + SubdistrictTambon + name) == name
  {
    var word := front + SubdistrictTambon + name;
    FirstOccurrenceAfter(front, SubdistrictTambon, name);
    assert !StartsWith(word, SubdistrictMark) by { assert !OccursAt(word, SubdistrictMark, 0); }
    assert !StartsWith(word, SubdistrictKhwaeng) by { assert !OccursAt(word, SubdistrictKhwaeng, 0); }
    assert !StartsWith(word, SubdistrictTambon) by { assert !OccursAt(word, SubdistrictTambon, 0); }
    assert word[|front| + 4..] == name;
  }

  // ---------------------------------------------------------------------------
  // extract_zip: re.match(r".*(\d{5}).*", addr)
  // ---------------------------------------------------------------------------

  /** Five decimal digits start at `i`, and no line break comes before them (where `.` cannot go). */
  predicate ZipWindowAt(s: string, i: nat) {
    i + 5 <= |s| && (forall k :: i <= k < i + 5 ==> IsDecimalDigit(s[k])) && '\n' !in s[..i]
  }

  predicate HasZipWindow(s: string) {
    exists i: nat | i <= |s| :: ZipWindowAt(s, i)
  }

  /** The greatest start of a zip window at or below `hi`, if any. */
  function LastZipWindowFrom(s: string, hi: int): (r: int)
    ensures r == -1 || 0 <= r <= hi
    ensures r >= 0 ==> ZipWindowAt(s, r)
    ensures forall j: nat :: r < j <= hi ==> !ZipWindowAt(s, j)
    decreases hi + 1
  {
    if hi < 0 then -1
    else if ZipWindowAt(s, hi) then hi
    else LastZipWindowFrom(s, hi - 1)
  }

  /**
   * The code the greedy `.*` lets through: the last run of five digits that
   * no line break precedes. The source fails when there is none.
   */
  function ExtractZip(addr: string): (zip: string)
    requires HasZipWindow(addr)
    ensures |zip| == 5 && forall k :: 0 <= k < 5 ==> IsDecimalDigit(zip[k])
    ensures exists i: nat :: ZipWindowAt(addr, i) && zip == addr[i..i + 5] && forall j: nat :: i < j ==> !ZipWindowAt(addr, j)
  {
    var i := LastZipWindowFrom(addr, |addr| - 5);
    assert i >= 0 by {
      var w: nat :| ZipWindowAt(addr, w);
    }
    assert forall j: nat :: i < j ==> !ZipWindowAt(addr, j);
    addr[i..i + 5]
  }

  /** An address ending in a five-digit word, with no line break in it, gives that word. */
  lemma ZipRoundTrip(lead: seq<string>, subdistrict: string, district: string, province: string, zip: string)
    requires |zip| == 5 && forall k :: 0 <= k < 5 ==> IsDecimalDigit(zip[k])
    requires '\n' !in Address(lead, subdistrict, district, province, zip)
    ensures HasZipWindow(Address(lead, subdistrict, district, province, zip))
    ensures ExtractZip(Address(lead, subdistrict, district, province, zip)) == zip
  {
    var s := Address(lead, subdistrict, district, province, zip);
    var parts := lead + [subdistrict, district, province, zip];
    JoinEndsWithLast(parts, ' ');
    var i := |s| - 5;
    assert s[i..i + 5] == zip;
    assert ZipWindowAt(s, i);
  }

  lemma {:induction false} JoinEndsWithLast(parts: seq<string>, c: char)
    requires parts != []
    ensures EndsWith(Join(parts, c), parts[|parts| - 1])
  {
    if |parts| > 1 {
      JoinEndsWithLast(parts[1..], c);
    }
  }
}
