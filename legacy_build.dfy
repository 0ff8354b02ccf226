/**
 * The older `build_tumbon_resource` of the repository's root builder: the same
 * classification and grouping as the current one, but its nodes carry names
 * and postal codes only, no codes. The other legacy helpers (`get_zip`,
 * `clean_district_name`, `build_map` and the address tokenisers) are the same
 * text as the current ones and are modelled once, in `Hierarchy` and
 * `AddressTokens`.
 */
module LegacyBuild {
  import opened Strings
  import opened Hierarchy
  import opened Lists

  datatype LegacySubdistrict = LegacySubdistrict(name: string, zip: string)
  datatype LegacyDistrict = LegacyDistrict(name: string, subdistricts: seq<LegacySubdistrict>)
  datatype LegacyProvince = LegacyProvince(name: string, districts: seq<LegacyDistrict>)

  // ---------------------------------------------------------------------------
  // Mapping over lists
  // ---------------------------------------------------------------------------

  /** `f` applied to the value of every (key, value) pair, keys kept. */
  function MapItems<A, B>(items: seq<(string, A)>, f: A -> B): (r: seq<(string, B)>)
    ensures |r| == |items|
    ensures forall i :: 0 <= i < |items| ==> r[i] == (items[i].0, f(items[i].1))
  {
    if items == [] then []
    else
      var init := MapItems(items[..|items| - 1], f);
      var last := items[|items| - 1];
      var r := init + [(last.0, f(last.1))];
      assert forall i :: 0 <= i < |items| - 1 ==> r[i] == init[i] && items[..|items| - 1][i] == items[i];
      r
  }

  lemma MapItemsAppend<A, B>(a: seq<(string, A)>, b: seq<(string, A)>, f: A -> B)
    ensures MapItems(a + b, f) == MapItems(a, f) + MapItems(b, f)
  {
    var l := MapItems(a + b, f);
    var r := MapItems(a, f) + MapItems(b, f);
    assert |l| == |r|;
    forall i | 0 <= i < |l|
      ensures l[i] == r[i]
    {
      if i < |a| {
        assert (a + b)[i] == a[i];
      } else {
        assert (a + b)[i] == b[i - |a|];
      }
    }
  }

  /** The values under a key, mapped, are the mapped values under that key. */
  lemma {:induction false} ValuesForMapped<A, B>(items: seq<(string, A)>, f: A -> B, key: string)
    ensures ValuesFor(MapItems(items, f), key) == MapSeq(ValuesFor(items, key), f)
  {
    if items != [] {
      var init := items[..|items| - 1];
      var last := items[|items| - 1];
      var mapped := MapItems(items, f);
      assert mapped[..|mapped| - 1] == MapItems(init, f);
      ValuesForMapped(init, f, key);
      var v := ValuesFor(init, key);
      if last.0 == key {
        assert (v + [last.1])[..|v|] == v;
      } else {
        assert v + [] == v;
      }
    }
  }

  /** Grouping mapped pairs gives the same keys, each with its list mapped. */
  lemma GroupedMapped<A, B>(items: seq<(string, A)>, f: A -> B, key: string)
    ensures key in Grouped(MapItems(items, f)) <==> key in Grouped(items)
    ensures key in Grouped(items) ==> Grouped(MapItems(items, f))[key] == MapSeq(Grouped(items)[key], f)
  {
    GroupedValues(items, key);
    GroupedValues(MapItems(items, f), key);
    ValuesForMapped(items, f, key);
  }

  // ---------------------------------------------------------------------------
  // The legacy build
  // ---------------------------------------------------------------------------

  /** The subdistrict rows' names keyed by the first four characters of their code. */
  function LegacySubdistrictItems(rows: seq<Row>): seq<(string, string)> {
    if rows == [] then []
    else
      var row := rows[|rows| - 1];
      LegacySubdistrictItems(rows[..|rows| - 1])
      + if IsSubdistrictCode(row.code) then [(Prefix(row.code, 4), row.name)] else []
  }

  function LegacySubdistrictGroups(rows: seq<Row>): map<string, seq<string>> {
    Grouped(LegacySubdistrictItems(rows))
  }

  /** The subdistricts of a district, each with its postal code. */
  function LegacyZipped(names: seq<string>, info: ZipInfo): (nodes: seq<LegacySubdistrict>)
    ensures |nodes| == |names|
    ensures forall i :: 0 <= i < |names| ==> nodes[i] == LegacySubdistrict(names[i], GetZip(info, names[i]))
  {
    if names == [] then []
    else [LegacySubdistrict(names[0], GetZip(info, names[0]))] + LegacyZipped(names[1..], info)
  }

  predicate LegacyDistrictResolvable(row: Row, groups: map<string, seq<string>>, zipData: ZipData) {
    CleanDistrictName(row.name) in zipData && Prefix(row.code, 4) in groups
  }

  function LegacyDistrictOf(row: Row, groups: map<string, seq<string>>, zipData: ZipData): LegacyDistrict
    requires LegacyDistrictResolvable(row, groups, zipData)
  {
    var name := CleanDistrictName(row.name);
    LegacyDistrict(name, LegacyZipped(groups[Prefix(row.code, 4)], zipData[name]))
  }

  /** The district rows as nodes, keyed by the first two characters of their code. */
  function LegacyDistrictItems(rows: seq<Row>, groups: map<string, seq<string>>, zipData: ZipData): seq<(string, LegacyDistrict)>
    requires forall j :: 0 <= j < |rows| && IsDistrictCode(rows[j].code) ==> LegacyDistrictResolvable(rows[j], groups, zipData)
  {
    if rows == [] then []
    else
      var row := rows[|rows| - 1];
      LegacyDistrictItems(rows[..|rows| - 1], groups, zipData)
      + if IsDistrictCode(row.code) then [(Prefix(row.code, 2), LegacyDistrictOf(row, groups, zipData))] else []
  }

  /** The province rows as nodes, each with the districts grouped under its first two code characters. */
  function LegacyProvinceNodes(rows: seq<Row>, groups: map<string, seq<LegacyDistrict>>): seq<LegacyProvince>
    requires forall j :: 0 <= j < |rows| && IsProvinceCode(rows[j].code) ==> Prefix(rows[j].code, 2) in groups
  {
    if rows == [] then []
    else
      var row := rows[|rows| - 1];
      LegacyProvinceNodes(rows[..|rows| - 1], groups)
      + if IsProvinceCode(row.code) then [LegacyProvince(row.name, groups[Prefix(row.code, 2)])] else []
  }

  // ---------------------------------------------------------------------------
  // Agreement with the current build
  // ---------------------------------------------------------------------------

  function EntryName(e: SubdistrictEntry): string {
    e.name
  }

  function ForgetSubdistrict(s: SubdistrictNode): LegacySubdistrict {
    LegacySubdistrict(s.name, s.zip)
  }

  function ForgetDistrict(d: DistrictNode): LegacyDistrict {
    LegacyDistrict(d.name, MapSeq(d.subdistricts, ForgetSubdistrict))
  }

  /** A current province node with its codes dropped, all the way down. */
  function ForgetProvince(p: ProvinceNode): LegacyProvince {
    LegacyProvince(p.name, MapSeq(p.districts, ForgetDistrict))
  }

  /** The legacy subdistrict pairs are the current ones with the codes dropped. */
  lemma {:induction false} SubdistrictItemsAgree(rows: seq<Row>)
    ensures LegacySubdistrictItems(rows) == MapItems(SubdistrictItems(rows), EntryName)
  {
    if rows != [] {
      var init := rows[..|rows| - 1];
      var row := rows[|rows| - 1];
      SubdistrictItemsAgree(init);
      var extra := if IsSubdistrictCode(row.code) then [(Prefix(row.code, 4), SubdistrictEntry(row.name, row.code))] else [];
      MapItemsAppend(SubdistrictItems(init), extra, EntryName);
    }
  }

  /** The legacy subdistrict groups are the current ones with the codes dropped. */
  lemma SubdistrictGroupsAgree(rows: seq<Row>, key: string)
    ensures key in LegacySubdistrictGroups(rows) <==> key in SubdistrictGroups(rows)
    ensures key in SubdistrictGroups(rows) ==> LegacySubdistrictGroups(rows)[key] == MapSeq(SubdistrictGroups(rows)[key], EntryName)
  {
    SubdistrictItemsAgree(rows);
    GroupedMapped(SubdistrictItems(rows), EntryName, key);
  }

  /** Zipping the names gives the zipped subdistricts with their codes dropped. */
  lemma ZippedAgree(entries: seq<SubdistrictEntry>, info: ZipInfo)
    ensures LegacyZipped(MapSeq(entries, EntryName), info) == MapSeq(ZippedSubdistricts(entries, info), ForgetSubdistrict)
  {
  }

  /** The groups that the legacy district items are built from, related to the current ones. */
  predicate GroupsAgree(groups: map<string, seq<SubdistrictEntry>>, legacyGroups: map<string, seq<string>>) {
    forall key :: key in groups ==> key in legacyGroups && legacyGroups[key] == MapSeq(groups[key], EntryName)
  }

  lemma {:induction false} DistrictItemsAgree(rows: seq<Row>, groups: map<string, seq<SubdistrictEntry>>,
                                              legacyGroups: map<string, seq<string>>, zipData: ZipData)
    requires forall j :: 0 <= j < |rows| && IsDistrictCode(rows[j].code) ==> DistrictResolvable(rows[j], groups, zipData)
    requires GroupsAgree(groups, legacyGroups)
    ensures forall j :: 0 <= j < |rows| && IsDistrictCode(rows[j].code) ==> LegacyDistrictResolvable(rows[j], legacyGroups, zipData)
    ensures LegacyDistrictItems(rows, legacyGroups, zipData) == MapItems(DistrictItems(rows, groups, zipData), ForgetDistrict)
  {
    if rows != [] {
      var init := rows[..|rows| - 1];
      var row := rows[|rows| - 1];
      assert forall j :: 0 <= j < |init| ==> init[j] == rows[j];
      DistrictItemsAgree(init, groups, legacyGroups, zipData);
      var extra := if IsDistrictCode(row.code) then [(Prefix(row.code, 2), DistrictNodeOf(row, groups, zipData))] else [];
      MapItemsAppend(DistrictItems(init, groups, zipData), extra, ForgetDistrict);
      if IsDistrictCode(row.code) {
        var name := CleanDistrictName(row.name);
        ZippedAgree(groups[Prefix(row.code, 4)], zipData[name]);
      }
    }
  }

  lemma {:induction false} ProvinceNodesAgree(rows: seq<Row>, groups: map<string, seq<DistrictNode>>,
                                              legacyGroups: map<string, seq<LegacyDistrict>>)
    requires forall j :: 0 <= j < |rows| && IsProvinceCode(rows[j].code) ==> Prefix(rows[j].code, 2) in groups
    requires forall key :: key in groups ==> key in legacyGroups && legacyGroups[key] == MapSeq(groups[key], ForgetDistrict)
    ensures forall j :: 0 <= j < |rows| && IsProvinceCode(rows[j].code) ==> Prefix(rows[j].code, 2) in legacyGroups
    ensures LegacyProvinceNodes(rows, legacyGroups) == MapSeq(ProvinceNodes(rows, groups), ForgetProvince)
  {
    if rows != [] {
      var init := rows[..|rows| - 1];
      assert forall j :: 0 <= j < |init| ==> init[j] == rows[j];
      ProvinceNodesAgree(init, groups, legacyGroups);
      var before := ProvinceNodes(init, groups);
      var row := rows[|rows| - 1];
      if IsProvinceCode(row.code) {
        var p := ProvinceNode(row.name, row.code, groups[Prefix(row.code, 2)]);
        assert MapSeq(before + [p], ForgetProvince) == MapSeq(before, ForgetProvince) + [ForgetProvince(p)];
      } else {
        assert before + [] == before;
      }
    }
  }

  function LegacyDistrictGroups(rows: seq<Row>, zipData: ZipData): map<string, seq<LegacyDistrict>>
    requires Resolvable(rows, zipData)
    ensures forall j :: 0 <= j < |rows| && IsDistrictCode(rows[j].code) ==> LegacyDistrictResolvable(rows[j], LegacySubdistrictGroups(rows), zipData)
    ensures forall key :: key in DistrictGroups(rows, zipData) ==>
              key in LegacyDistrictGroups(rows, zipData)
              && LegacyDistrictGroups(rows, zipData)[key] == MapSeq(DistrictGroups(rows, zipData)[key], ForgetDistrict)
  {
    DistrictsResolvable(rows, zipData);
    var groups := SubdistrictGroups(rows);
    var legacyGroups := LegacySubdistrictGroups(rows);
    forall key | key in groups
      ensures key in legacyGroups && legacyGroups[key] == MapSeq(groups[key], EntryName)
    {
      SubdistrictGroupsAgree(rows, key);
    }
    DistrictItemsAgree(rows, groups, legacyGroups, zipData);
    var items := DistrictItems(rows, groups, zipData);
    forall key | key in Grouped(items)
      ensures key in Grouped(MapItems(items, ForgetDistrict))
              && Grouped(MapItems(items, ForgetDistrict))[key] == MapSeq(Grouped(items)[key], ForgetDistrict)
    {
      GroupedMapped(items, ForgetDistrict, key);
    }
    Grouped(LegacyDistrictItems(rows, legacyGroups, zipData))
  }

  /** The tree the legacy `build_tumbon_resource` returns. */
  function LegacyTree(rows: seq<Row>, zipData: ZipData): (tree: seq<LegacyProvince>)
    requires Resolvable(rows, zipData)
    ensures tree == MapSeq(TumbonTree(rows, zipData), ForgetProvince)
  {
    ProvincesResolvable(rows, zipData);
    ProvinceNodesAgree(rows, DistrictGroups(rows, zipData), LegacyDistrictGroups(rows, zipData));
    LegacyProvinceNodes(rows, LegacyDistrictGroups(rows, zipData))
  }

  /**
   * The two builders agree: the legacy tree is the current tree with every
   * code dropped, so it has one province per province row in input order,
   * each with its districts and their subdistricts and postal codes.
   */
  lemma LegacyAgrees(rows: seq<Row>, zipData: ZipData)
    requires Resolvable(rows, zipData)
    ensures |LegacyTree(rows, zipData)| == |ProvinceRows(rows)|
    ensures forall i :: 0 <= i < |ProvinceRows(rows)| ==>
              LegacyTree(rows, zipData)[i].name == ProvinceRows(rows)[i].name
              && LegacyTree(rows, zipData)[i].districts == MapSeq(TumbonTree(rows, zipData)[i].districts, ForgetDistrict)
  {
  }
}
