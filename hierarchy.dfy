/**
 * The administrative hierarchy the builder publishes: rows of the official
 * table (an 8-digit code and a name) are classified by the zeros their code
 * ends in, grouped by code prefix, and assembled into provinces, their
 * districts and their subdistricts, each subdistrict with its postal code.
 */
module Hierarchy {
  import opened Strings

  // ---------------------------------------------------------------------------
  // Names and postal codes
  // ---------------------------------------------------------------------------

  /** The designator "เขต" that Bangkok district names carry in the official table. */
  const Khet: string := "เขต"

  /** `clean_district_name`: one leading "เขต" removed, any other name kept. */
  function CleanDistrictName(name: string): (r: string)
    ensures StartsWith(name, Khet) ==> name == Khet + r
    ensures !StartsWith(name, Khet) ==> r == name
  {
    if StartsWith(name, Khet) then name[3..] else name
  }

  /** Exactly one designator goes, even when the rest starts with another. */
  lemma KhetRemovedOnce(name: string)
    ensures CleanDistrictName(Khet + name) == name
  {
    assert (Khet + name)[..3] == Khet;
  }

  /** The postal codes of one district: its primary code and the exceptions by subdistrict name. */
  datatype ZipInfo = ZipInfo(primary: string, exceptional: map<string, string>)

  /** The postal codes of every district, by district name. */
  type ZipData = map<string, ZipInfo>

  /** `get_zip`: a subdistrict's exceptional code if it has one, otherwise its district's primary code. */
  function GetZip(info: ZipInfo, name: string): (zip: string)
    ensures name in info.exceptional ==> zip == info.exceptional[name]
    ensures name !in info.exceptional ==> zip == info.primary
    ensures zip == info.primary || zip in info.exceptional.Values
  {
    if name in info.exceptional then info.exceptional[name] else info.primary
  }

  // ---------------------------------------------------------------------------
  // Codes
  // ---------------------------------------------------------------------------

  /** One row of the official table. */
  datatype Row = Row(code: string, name: string)

  predicate IsProvinceCode(code: string) {
    EndsWith(code, "000000")
  }

  predicate IsDistrictCode(code: string) {
    EndsWith(code, "0000") && !EndsWith(code, "000000")
  }

  predicate IsSubdistrictCode(code: string) {
    !EndsWith(code, "0000")
  }

  /** Every code is of exactly one kind. */
  lemma CodeKinds(code: string)
    ensures IsProvinceCode(code) || IsDistrictCode(code) || IsSubdistrictCode(code)
    ensures !(IsProvinceCode(code) && IsDistrictCode(code))
    ensures !(IsProvinceCode(code) && IsSubdistrictCode(code))
    ensures !(IsDistrictCode(code) && IsSubdistrictCode(code))
  {
    if IsProvinceCode(code) {
      assert code[|code| - 4..] == code[|code| - 6..][2..];
    }
  }

  /** `code[0:n]` */
  function Prefix(code: string, n: nat): string {
    Take(code, n)
  }

  // ---------------------------------------------------------------------------
  // build_map: a dictionary of lists, appended to in place
  // ---------------------------------------------------------------------------

  /** The list under `key`, or the empty list when there is none yet. */
  function Bucket<V>(m: map<string, seq<V>>, key: string): seq<V> {
    if key in m then m[key] else []
  }

  /** `m` after appending `value` to the list under `key`. */
  function AddToBucket<V>(m: map<string, seq<V>>, key: string, value: V): (r: map<string, seq<V>>)
    ensures r.Keys == m.Keys + {key}
    ensures r[key] == Bucket(m, key) + [value]
    ensures forall k :: k in m && k != key ==> r[k] == m[k]
  {
    m[key := Bucket(m, key) + [value]]
  }

  /** A dictionary from keys to lists that grows in place. */
  class Buckets<V> {
    var contents: map<string, seq<V>>

    constructor ()
      ensures contents == map[]
    {
      contents := map[];
    }

    /** `build_map`: creates the list under `key` if needed and appends `value` to it. */
    method BuildMap(key: string, value: V)
      modifies this
      ensures contents == AddToBucket(old(contents), key, value)
    {
      if key !in contents {
        contents := contents[key := []];
      }
      contents := contents[key := contents[key] + [value]];
    }
  }

  /** The dictionary `reduce(build_map, ...)` builds from (key, value) pairs, from empty. */
  function Grouped<V>(items: seq<(string, V)>): map<string, seq<V>> {
    if items == [] then map[]
    else
      var last := items[|items| - 1];
      AddToBucket(Grouped(items[..|items| - 1]), last.0, last.1)
  }

  /** One more pair is one more `build_map` call. */
  lemma GroupedSnoc<V>(items: seq<(string, V)>, key: string, value: V)
    ensures Grouped(items + [(key, value)]) == AddToBucket(Grouped(items), key, value)
  {
    assert (items + [(key, value)])[..|items|] == items;
  }

  /** The values paired with `key`, in order. */
  function ValuesFor<V>(items: seq<(string, V)>, key: string): seq<V> {
    if items == [] then []
    else
      var last := items[|items| - 1];
      ValuesFor(items[..|items| - 1], key) + if last.0 == key then [last.1] else []
  }

  /** Each key's list holds exactly the values paired with it, in input order; keys with none are absent. */
  lemma {:induction false} GroupedValues<V>(items: seq<(string, V)>, key: string)
    ensures key in Grouped(items) <==> ValuesFor(items, key) != []
    ensures key in Grouped(items) ==> Grouped(items)[key] == ValuesFor(items, key)
  {
    if items != [] {
      GroupedValues(items[..|items| - 1], key);
    }
  }

  /** Some value is paired with `key` exactly when some item carries `key`. */
  lemma {:induction false} ValuesForPresent<V>(items: seq<(string, V)>, key: string)
    ensures ValuesFor(items, key) != [] <==> exists i :: 0 <= i < |items| && items[i].0 == key
  {
    if items != [] {
      var init := items[..|items| - 1];
      ValuesForPresent(init, key);
      if exists i :: 0 <= i < |init| && init[i].0 == key {
        var i :| 0 <= i < |init| && init[i].0 == key;
        assert items[i].0 == key;
      }
      if exists i :: 0 <= i < |items| && items[i].0 == key {
        var i :| 0 <= i < |items| && items[i].0 == key;
        if i < |init| {
          assert init[i].0 == key;
        }
      }
    }
  }

  // ---------------------------------------------------------------------------
  // build_tumbon_resource
  // ---------------------------------------------------------------------------

  datatype SubdistrictEntry = SubdistrictEntry(name: string, code: string)
  datatype SubdistrictNode = SubdistrictNode(name: string, code: string, zip: string)
  datatype DistrictNode = DistrictNode(name: string, code: string, subdistricts: seq<SubdistrictNode>)
  datatype ProvinceNode = ProvinceNode(name: string, code: string, districts: seq<DistrictNode>)

  /** The subdistrict rows keyed by the first four characters of their code. */
  function SubdistrictItems(rows: seq<Row>): seq<(string, SubdistrictEntry)> {
    if rows == [] then []
    else
      var row := rows[|rows| - 1];
      SubdistrictItems(rows[..|rows| - 1])
      + if IsSubdistrictCode(row.code) then [(Prefix(row.code, 4), SubdistrictEntry(row.name, row.code))] else []
  }

  /** The subdistricts of a district, each with its postal code (`get_zip` on the district's codes). */
  function ZippedSubdistricts(entries: seq<SubdistrictEntry>, info: ZipInfo): (nodes: seq<SubdistrictNode>)
    ensures |nodes| == |entries|
    ensures forall i :: 0 <= i < |entries| ==>
              nodes[i] == SubdistrictNode(entries[i].name, entries[i].code, GetZip(info, entries[i].name))
  {
    if entries == [] then []
    else [SubdistrictNode(entries[0].name, entries[0].code, GetZip(info, entries[0].name))] + ZippedSubdistricts(entries[1..], info)
  }

  /**
   * The lookups the builder makes for a district row without failing: its
   * cleaned name has postal codes, and some subdistrict shares its first
   * four code characters.
   */
  predicate DistrictResolvable(row: Row, groups: map<string, seq<SubdistrictEntry>>, zipData: ZipData) {
    CleanDistrictName(row.name) in zipData && Prefix(row.code, 4) in groups
  }

  function DistrictNodeOf(row: Row, groups: map<string, seq<SubdistrictEntry>>, zipData: ZipData): DistrictNode
    requires DistrictResolvable(row, groups, zipData)
  {
    var name := CleanDistrictName(row.name);
    DistrictNode(name, row.code, ZippedSubdistricts(groups[Prefix(row.code, 4)], zipData[name]))
  }

  /** The district rows as nodes, keyed by the first two characters of their code. */
  function DistrictItems(rows: seq<Row>, groups: map<string, seq<SubdistrictEntry>>, zipData: ZipData): seq<(string, DistrictNode)>
    requires forall j :: 0 <= j < |rows| && IsDistrictCode(rows[j].code) ==> DistrictResolvable(rows[j], groups, zipData)
  {
    if rows == [] then []
    else
      var row := rows[|rows| - 1];
      DistrictItems(rows[..|rows| - 1], groups, zipData)
      + if IsDistrictCode(row.code) then [(Prefix(row.code, 2), DistrictNodeOf(row, groups, zipData))] else []
  }

  /** The province rows as nodes, each with the districts grouped under its first two code characters. */
  function ProvinceNodes(rows: seq<Row>, groups: map<string, seq<DistrictNode>>): (nodes: seq<ProvinceNode>)
    requires forall j :: 0 <= j < |rows| && IsProvinceCode(rows[j].code) ==> Prefix(rows[j].code, 2) in groups
  {
    if rows == [] then []
    else
      var row := rows[|rows| - 1];
      ProvinceNodes(rows[..|rows| - 1], groups)
      + if IsProvinceCode(row.code) then [ProvinceNode(row.name, row.code, groups[Prefix(row.code, 2)])] else []
  }

  /**
   * The lookups `build_tumbon_resource` makes all succeed: every district's
   * cleaned name has postal codes, every district has a subdistrict under its
   * first four code characters, and every province a district under its first two.
   */
  predicate Resolvable(rows: seq<Row>, zipData: ZipData) {
    (forall j :: 0 <= j < |rows| && IsDistrictCode(rows[j].code) ==> CleanDistrictName(rows[j].name) in zipData)
    && (forall j :: 0 <= j < |rows| && IsDistrictCode(rows[j].code) ==>
          exists k :: 0 <= k < |rows| && IsSubdistrictCode(rows[k].code) && Prefix(rows[k].code, 4) == Prefix(rows[j].code, 4))
    && (forall j :: 0 <= j < |rows| && IsProvinceCode(rows[j].code) ==>
          exists k :: 0 <= k < |rows| && IsDistrictCode(rows[k].code) && Prefix(rows[k].code, 2) == Prefix(rows[j].code, 2))
  }

  function SubdistrictGroups(rows: seq<Row>): map<string, seq<SubdistrictEntry>> {
    Grouped(SubdistrictItems(rows))
  }

  function DistrictGroups(rows: seq<Row>, zipData: ZipData): map<string, seq<DistrictNode>>
    requires Resolvable(rows, zipData)
  {
    DistrictsResolvable(rows, zipData);
    Grouped(DistrictItems(rows, SubdistrictGroups(rows), zipData))
  }

  /** Every district row finds its cleaned name in the postal codes and its subdistricts in the groups. */
  predicate DistrictsFound(rows: seq<Row>, zipData: ZipData) {
    forall j :: 0 <= j < |rows| && IsDistrictCode(rows[j].code) ==> DistrictResolvable(rows[j], SubdistrictGroups(rows), zipData)
  }

  /**
   * The provinces, with their districts and subdistricts, that
   * `build_tumbon_resource` returns: one node per row whose code ends in six
   * zeros, in input order, each holding the districts whose code shares its
   * first two characters, in input order.
   */
  function TumbonTree(rows: seq<Row>, zipData: ZipData): (tree: seq<ProvinceNode>)
    requires Resolvable(rows, zipData)
    ensures DistrictsFound(rows, zipData)
    ensures |tree| == |ProvinceRows(rows)|
    ensures forall i :: 0 <= i < |tree| ==>
              var p := ProvinceRows(rows)[i];
              tree[i].name == p.name && tree[i].code == p.code
              && tree[i].districts == ValuesFor(DistrictItems(rows, SubdistrictGroups(rows), zipData), Prefix(p.code, 2))
  {
    ProvincesResolvable(rows, zipData);
    TreeShape(rows, zipData);
    ProvinceNodes(rows, DistrictGroups(rows, zipData))
  }

  /** Every district row finds its subdistricts. */
  lemma DistrictsResolvable(rows: seq<Row>, zipData: ZipData)
    requires Resolvable(rows, zipData)
    ensures DistrictsFound(rows, zipData)
  {
    forall j | 0 <= j < |rows| && IsDistrictCode(rows[j].code)
      ensures Prefix(rows[j].code, 4) in SubdistrictGroups(rows)
    {
      var key := Prefix(rows[j].code, 4);
      var k :| 0 <= k < |rows| && IsSubdistrictCode(rows[k].code) && Prefix(rows[k].code, 4) == key;
      SubdistrictItemOfRow(rows, k);
      var items := SubdistrictItems(rows);
      ValuesForPresent(items, key);
      GroupedValues(items, key);
    }
  }

  /** Every province row finds its districts. */
  lemma ProvincesResolvable(rows: seq<Row>, zipData: ZipData)
    requires Resolvable(rows, zipData)
    ensures forall j :: 0 <= j < |rows| && IsProvinceCode(rows[j].code) ==> Prefix(rows[j].code, 2) in DistrictGroups(rows, zipData)
  {
    DistrictsResolvable(rows, zipData);
    var groups := SubdistrictGroups(rows);
    var items := DistrictItems(rows, groups, zipData);
    forall j | 0 <= j < |rows| && IsProvinceCode(rows[j].code)
      ensures Prefix(rows[j].code, 2) in DistrictGroups(rows, zipData)
    {
      var key := Prefix(rows[j].code, 2);
      var k :| 0 <= k < |rows| && IsDistrictCode(rows[k].code) && Prefix(rows[k].code, 2) == key;
      DistrictItemOfRow(rows, groups, zipData, k);
      ValuesForPresent(items, key);
      GroupedValues(items, key);
    }
  }

  /** Each subdistrict row gives an item. */
  lemma {:induction false} SubdistrictItemOfRow(rows: seq<Row>, k: nat)
    requires k < |rows| && IsSubdistrictCode(rows[k].code)
    ensures exists i :: 0 <= i < |SubdistrictItems(rows)| && SubdistrictItems(rows)[i].0 == Prefix(rows[k].code, 4)
  {
    var init := rows[..|rows| - 1];
    if k < |rows| - 1 {
      SubdistrictItemOfRow(init, k);
      var i :| 0 <= i < |SubdistrictItems(init)| && SubdistrictItems(init)[i].0 == Prefix(init[k].code, 4);
      assert SubdistrictItems(rows)[i] == SubdistrictItems(init)[i];
    } else {
      assert SubdistrictItems(rows)[|SubdistrictItems(rows)| - 1].0 == Prefix(rows[k].code, 4);
    }
  }

  /** Each district row gives an item. */
  lemma {:induction false} DistrictItemOfRow(rows: seq<Row>, groups: map<string, seq<SubdistrictEntry>>, zipData: ZipData, k: nat)
    requires forall j :: 0 <= j < |rows| && IsDistrictCode(rows[j].code) ==> DistrictResolvable(rows[j], groups, zipData)
    requires k < |rows| && IsDistrictCode(rows[k].code)
    ensures exists i :: 0 <= i < |DistrictItems(rows, groups, zipData)| && DistrictItems(rows, groups, zipData)[i].0 == Prefix(rows[k].code, 2)
  {
    var init := rows[..|rows| - 1];
    if k < |rows| - 1 {
      DistrictItemOfRow(init, groups, zipData, k);
      var i :| 0 <= i < |DistrictItems(init, groups, zipData)| && DistrictItems(init, groups, zipData)[i].0 == Prefix(init[k].code, 2);
      assert DistrictItems(rows, groups, zipData)[i] == DistrictItems(init, groups, zipData)[i];
    } else {
      var items := DistrictItems(rows, groups, zipData);
      assert items[|items| - 1].0 == Prefix(rows[k].code, 2);
    }
  }

  /**
   * `build_tumbon_resource`: three passes over the rows. The first groups the
   * subdistricts by district prefix, the second builds each district node and
   * groups those by province prefix, the third builds the province nodes.
   */
  method BuildTumbonResource(rows: seq<Row>, zipData: ZipData) returns (provinces: seq<ProvinceNode>)
    requires Resolvable(rows, zipData)
    ensures provinces == TumbonTree(rows, zipData)
  {
    var subdistrictsMap := GroupSubdistricts(rows);
    DistrictsResolvable(rows, zipData);
    var districtsMap := GroupDistricts(rows, subdistrictsMap.contents, zipData);
    ProvincesResolvable(rows, zipData);
    provinces := ProvinceList(rows, districtsMap.contents);
  }

  /** The first pass: `reduce(build_map, ...)` over the subdistrict rows. */
  method GroupSubdistricts(rows: seq<Row>) returns (subdistrictsMap: Buckets<SubdistrictEntry>)
    ensures fresh(subdistrictsMap)
    ensures subdistrictsMap.contents == SubdistrictGroups(rows)
  {
    subdistrictsMap := new Buckets<SubdistrictEntry>();
    for i := 0 to |rows|
      invariant subdistrictsMap.contents == Grouped(SubdistrictItems(rows[..i]))
    {
      assert rows[..i + 1][..i] == rows[..i];
      var row := rows[i];
      assert rows[..i + 1][i] == row;
      if IsSubdistrictCode(row.code) {
        var entry := SubdistrictEntry(row.name, row.code);
        assert SubdistrictItems(rows[..i + 1]) == SubdistrictItems(rows[..i]) + [(Prefix(row.code, 4), entry)];
        GroupedSnoc(SubdistrictItems(rows[..i]), Prefix(row.code, 4), entry);
        subdistrictsMap.BuildMap(Prefix(row.code, 4), entry);
      } else {
        assert SubdistrictItems(rows[..i + 1]) == SubdistrictItems(rows[..i]);
      }
    }
    assert rows[..|rows|] == rows;
  }

  /** The second pass: each district node, put under its province prefix. */
  method GroupDistricts(rows: seq<Row>, groups: map<string, seq<SubdistrictEntry>>, zipData: ZipData)
    returns (districtsMap: Buckets<DistrictNode>)
    requires forall j :: 0 <= j < |rows| && IsDistrictCode(rows[j].code) ==> DistrictResolvable(rows[j], groups, zipData)
    ensures fresh(districtsMap)
    ensures districtsMap.contents == Grouped(DistrictItems(rows, groups, zipData))
  {
    districtsMap := new Buckets<DistrictNode>();
    for i := 0 to |rows|
      invariant districtsMap.contents == Grouped(DistrictItems(rows[..i], groups, zipData))
    {
      assert rows[..i + 1][..i] == rows[..i];
      var row := rows[i];
      assert rows[..i + 1][i] == row;
      if IsDistrictCode(row.code) {
        var name := CleanDistrictName(row.name);
        var node := DistrictNode(name, row.code, ZippedSubdistricts(groups[Prefix(row.code, 4)], zipData[name]));
        assert DistrictItems(rows[..i + 1], groups, zipData) == DistrictItems(rows[..i], groups, zipData) + [(Prefix(row.code, 2), node)];
        GroupedSnoc(DistrictItems(rows[..i], groups, zipData), Prefix(row.code, 2), node);
        districtsMap.BuildMap(Prefix(row.code, 2), node);
      } else {
        assert DistrictItems(rows[..i + 1], groups, zipData) == DistrictItems(rows[..i], groups, zipData);
      }
    }
    assert rows[..|rows|] == rows;
  }

  /** The third pass: one node per province row. */
  method ProvinceList(rows: seq<Row>, groups: map<string, seq<DistrictNode>>) returns (provinces: seq<ProvinceNode>)
    requires forall j :: 0 <= j < |rows| && IsProvinceCode(rows[j].code) ==> Prefix(rows[j].code, 2) in groups
    ensures provinces == ProvinceNodes(rows, groups)
  {
    provinces := [];
    for i := 0 to |rows|
      invariant provinces == ProvinceNodes(rows[..i], groups)
    {
      assert rows[..i + 1][..i] == rows[..i];
      var row := rows[i];
      assert rows[..i + 1][i] == row;
      if IsProvinceCode(row.code) {
        provinces := provinces + [ProvinceNode(row.name, row.code, groups[Prefix(row.code, 2)])];
      }
    }
    assert rows[..|rows|] == rows;
  }

  // ---------------------------------------------------------------------------
  // What the tree holds
  // ---------------------------------------------------------------------------

  /** The province rows, in input order. */
  function ProvinceRows(rows: seq<Row>): seq<Row> {
    if rows == [] then []
    else
      var row := rows[|rows| - 1];
      ProvinceRows(rows[..|rows| - 1]) + if IsProvinceCode(row.code) then [row] else []
  }

  /**
   * The provinces are the rows whose code ends in six zeros, in input order,
   * and each holds the districts whose code shares its first two characters,
   * in input order.
   */
  lemma {:induction false} ProvincesOfRows(rows: seq<Row>, groups: map<string, seq<DistrictNode>>)
    requires forall j :: 0 <= j < |rows| && IsProvinceCode(rows[j].code) ==> Prefix(rows[j].code, 2) in groups
    ensures |ProvinceNodes(rows, groups)| == |ProvinceRows(rows)|
    ensures forall i :: 0 <= i < |ProvinceRows(rows)| ==>
              var p := ProvinceRows(rows)[i];
              IsProvinceCode(p.code) && Prefix(p.code, 2) in groups
              && ProvinceNodes(rows, groups)[i] == ProvinceNode(p.name, p.code, groups[Prefix(p.code, 2)])
  {
    if rows != [] {
      var init := rows[..|rows| - 1];
      assert forall j :: 0 <= j < |init| ==> init[j] == rows[j];
      ProvincesOfRows(init, groups);
    }
  }

  /** The provinces of the tree and the districts each holds. */
  lemma TreeShape(rows: seq<Row>, zipData: ZipData)
    requires Resolvable(rows, zipData)
    ensures DistrictsFound(rows, zipData)
    ensures forall j :: 0 <= j < |rows| && IsProvinceCode(rows[j].code) ==> Prefix(rows[j].code, 2) in DistrictGroups(rows, zipData)
    ensures var tree := ProvinceNodes(rows, DistrictGroups(rows, zipData));
            |tree| == |ProvinceRows(rows)|
            && forall i :: 0 <= i < |tree| ==>
                 var p := ProvinceRows(rows)[i];
                 tree[i].name == p.name && tree[i].code == p.code
                 && tree[i].districts == ValuesFor(DistrictItems(rows, SubdistrictGroups(rows), zipData), Prefix(p.code, 2))
  {
    ProvincesResolvable(rows, zipData);
    DistrictsResolvable(rows, zipData);
    var groups := DistrictGroups(rows, zipData);
    var items := DistrictItems(rows, SubdistrictGroups(rows), zipData);
    ProvincesOfRows(rows, groups);
    forall i | 0 <= i < |ProvinceRows(rows)|
      ensures groups[Prefix(ProvinceRows(rows)[i].code, 2)] == ValuesFor(items, Prefix(ProvinceRows(rows)[i].code, 2))
    {
      GroupedValues(items, Prefix(ProvinceRows(rows)[i].code, 2));
    }
  }

  /**
   * A district node holds, in input order, the subdistrict rows whose code
   * shares its first four characters, each with the postal code `get_zip`
   * gives from the district's codes.
   */
  lemma SubdistrictsOfDistrict(rows: seq<Row>, zipData: ZipData, j: nat)
    requires Resolvable(rows, zipData) && j < |rows| && IsDistrictCode(rows[j].code)
    ensures DistrictsFound(rows, zipData)
    ensures var node := DistrictNodeOf(rows[j], SubdistrictGroups(rows), zipData);
            var entries := ValuesFor(SubdistrictItems(rows), Prefix(rows[j].code, 4));
            node.name == CleanDistrictName(rows[j].name) && node.code == rows[j].code
            && |node.subdistricts| == |entries|
            && forall k :: 0 <= k < |entries| ==>
                 node.subdistricts[k] == SubdistrictNode(entries[k].name, entries[k].code, GetZip(zipData[node.name], entries[k].name))
  {
    DistrictsResolvable(rows, zipData);
    GroupedValues(SubdistrictItems(rows), Prefix(rows[j].code, 4));
  }
}
