/**
 * `flat_structured_data`: the province tree flattened into one record per
 * subdistrict, each carrying the names and codes of its district and province.
 */
module FlatData {
  import opened Strings
  import opened Hierarchy

  datatype Record = Record(
    province: string, district: string, subdistrict: string, zip: string,
    subdistrictCode: string, districtCode: string, provinceCode: string)

  /** The record of one subdistrict of district `d` of province `p`. */
  function RecordOf(p: ProvinceNode, d: DistrictNode, s: SubdistrictNode): Record {
    Record(p.name, d.name, s.name, s.zip, s.code, d.code, p.code)
  }

  /** The records of the subdistricts `ss` of district `d`, in order. */
  function SubdistrictRecords(p: ProvinceNode, d: DistrictNode, ss: seq<SubdistrictNode>): (out: seq<Record>)
    ensures |out| == |ss|
    ensures forall k :: 0 <= k < |ss| ==> out[k] == RecordOf(p, d, ss[k])
  {
    if ss == [] then []
    else
      var init := SubdistrictRecords(p, d, ss[..|ss| - 1]);
      var out := init + [RecordOf(p, d, ss[|ss| - 1])];
      assert forall k :: 0 <= k < |ss| - 1 ==> out[k] == init[k] && ss[..|ss| - 1][k] == ss[k];
      out
  }

  /** The records of the districts `ds` of province `p`, district by district. */
  function DistrictRecords(p: ProvinceNode, ds: seq<DistrictNode>): seq<Record> {
    if ds == [] then []
    else
      var d := ds[|ds| - 1];
      DistrictRecords(p, ds[..|ds| - 1]) + SubdistrictRecords(p, d, d.subdistricts)
  }

  /** The records of the provinces `ps`, province by province. */
  function Flatten(ps: seq<ProvinceNode>): seq<Record> {
    if ps == [] then []
    else
      var p := ps[|ps| - 1];
      Flatten(ps[..|ps| - 1]) + DistrictRecords(p, p.districts)
  }

  /** `flat_structured_data`: nested loops over provinces, districts and subdistricts, appending one record per subdistrict. */
  method FlatStructuredData(data: seq<ProvinceNode>) returns (out: seq<Record>)
    ensures out == Flatten(data)
  {
    out := [];
    for i := 0 to |data|
      invariant out == Flatten(data[..i])
    {
      out := AppendProvince(out, data[i]);
      FlattenSnoc(data, i);
    }
    assert data[..|data|] == data;
  }

  /** The middle loop: the records of every district of `province`, appended to `out`. */
  method AppendProvince(out: seq<Record>, province: ProvinceNode) returns (result: seq<Record>)
    ensures result == out + DistrictRecords(province, province.districts)
  {
    result := out;
    for j := 0 to |province.districts|
      invariant result == out + DistrictRecords(province, province.districts[..j])
    {
      result := AppendDistrict(result, province, province.districts[j]);
      DistrictRecordsSnoc(province, province.districts, j);
    }
    assert province.districts[..|province.districts|] == province.districts;
  }

  /** The inner loop: the records of every subdistrict of `district`, appended to `out`. */
  method AppendDistrict(out: seq<Record>, province: ProvinceNode, district: DistrictNode) returns (result: seq<Record>)
    ensures result == out + SubdistrictRecords(province, district, district.subdistricts)
  {
    result := out;
    for k := 0 to |district.subdistricts|
      invariant result == out + SubdistrictRecords(province, district, district.subdistricts[..k])
    {
      SubdistrictRecordsSnoc(province, district, district.subdistricts, k);
      result := result + [RecordOf(province, district, district.subdistricts[k])];
    }
    assert district.subdistricts[..|district.subdistricts|] == district.subdistricts;
  }

  lemma SubdistrictRecordsSnoc(p: ProvinceNode, d: DistrictNode, ss: seq<SubdistrictNode>, k: nat)
    requires k < |ss|
    ensures SubdistrictRecords(p, d, ss[..k + 1]) == SubdistrictRecords(p, d, ss[..k]) + [RecordOf(p, d, ss[k])]
  {
    assert ss[..k + 1][..k] == ss[..k];
  }

  lemma DistrictRecordsSnoc(p: ProvinceNode, ds: seq<DistrictNode>, j: nat)
    requires j < |ds|
    ensures DistrictRecords(p, ds[..j + 1]) == DistrictRecords(p, ds[..j]) + SubdistrictRecords(p, ds[j], ds[j].subdistricts)
  {
    assert ds[..j + 1][..j] == ds[..j];
  }

  lemma FlattenSnoc(ps: seq<ProvinceNode>, i: nat)
    requires i < |ps|
    ensures Flatten(ps[..i + 1]) == Flatten(ps[..i]) + DistrictRecords(ps[i], ps[i].districts)
  {
    assert ps[..i + 1][..i] == ps[..i];
  }

  // ---------------------------------------------------------------------------
  // What the flat list holds
  // ---------------------------------------------------------------------------

  /** The number of subdistricts under the districts `ds`. */
  function DistrictTotal(ds: seq<DistrictNode>): nat {
    if ds == [] then 0 else DistrictTotal(ds[..|ds| - 1]) + |ds[|ds| - 1].subdistricts|
  }

  /** The number of subdistricts in the provinces `ps`. */
  function SubdistrictTotal(ps: seq<ProvinceNode>): nat {
    if ps == [] then 0 else SubdistrictTotal(ps[..|ps| - 1]) + DistrictTotal(ps[|ps| - 1].districts)
  }

  /** One record per subdistrict. */
  lemma {:induction false} FlattenCount(ps: seq<ProvinceNode>)
    ensures |Flatten(ps)| == SubdistrictTotal(ps)
  {
    if ps != [] {
      FlattenCount(ps[..|ps| - 1]);
      DistrictRecordsCount(ps[|ps| - 1], ps[|ps| - 1].districts);
    }
  }

  lemma {:induction false} DistrictRecordsCount(p: ProvinceNode, ds: seq<DistrictNode>)
    ensures |DistrictRecords(p, ds)| == DistrictTotal(ds)
  {
    if ds != [] {
      DistrictRecordsCount(p, ds[..|ds| - 1]);
    }
  }

  /** The records of a province are exactly those of its subdistricts, with their district and province. */
  lemma DistrictRecordsMembers(p: ProvinceNode, ds: seq<DistrictNode>, r: Record)
    ensures r in DistrictRecords(p, ds) <==>
            exists j, k :: 0 <= j < |ds| && 0 <= k < |ds[j].subdistricts| && r == RecordOf(p, ds[j], ds[j].subdistricts[k])
  {
    if r in DistrictRecords(p, ds) {
      DistrictRecordOrigin(p, ds, r);
    }
    if exists j, k :: 0 <= j < |ds| && 0 <= k < |ds[j].subdistricts| && r == RecordOf(p, ds[j], ds[j].subdistricts[k]) {
      var j, k :| 0 <= j < |ds| && 0 <= k < |ds[j].subdistricts| && r == RecordOf(p, ds[j], ds[j].subdistricts[k]);
      DistrictRecordPresent(p, ds, j, k);
    }
  }

  /** Every record of a province comes from one of its subdistricts. */
  lemma {:induction false} DistrictRecordOrigin(p: ProvinceNode, ds: seq<DistrictNode>, r: Record)
    requires r in DistrictRecords(p, ds)
    ensures exists j, k :: 0 <= j < |ds| && 0 <= k < |ds[j].subdistricts| && r == RecordOf(p, ds[j], ds[j].subdistricts[k])
  {
    var init := ds[..|ds| - 1];
    var d := ds[|ds| - 1];
    var tail := SubdistrictRecords(p, d, d.subdistricts);
    assert DistrictRecords(p, ds) == DistrictRecords(p, init) + tail;
    if r in DistrictRecords(p, init) {
      DistrictRecordOrigin(p, init, r);
      var j, k :| 0 <= j < |init| && 0 <= k < |init[j].subdistricts| && r == RecordOf(p, init[j], init[j].subdistricts[k]);
      assert init[j] == ds[j];
    } else {
      var k :| 0 <= k < |tail| && tail[k] == r;
      assert r == RecordOf(p, ds[|ds| - 1], ds[|ds| - 1].subdistricts[k]);
    }
  }

  /** Every subdistrict of a province has its record among the province's records. */
  lemma {:induction false} DistrictRecordPresent(p: ProvinceNode, ds: seq<DistrictNode>, j: nat, k: nat)
    requires j < |ds| && k < |ds[j].subdistricts|
    ensures RecordOf(p, ds[j], ds[j].subdistricts[k]) in DistrictRecords(p, ds)
  {
    var init := ds[..|ds| - 1];
    var d := ds[|ds| - 1];
    var tail := SubdistrictRecords(p, d, d.subdistricts);
    assert DistrictRecords(p, ds) == DistrictRecords(p, init) + tail;
    if j < |init| {
      assert init[j] == ds[j];
      DistrictRecordPresent(p, init, j, k);
    } else {
      assert tail[k] == RecordOf(p, ds[j], ds[j].subdistricts[k]);
    }
  }

  /** A record is in the flat list exactly when it is among the records of one of the provinces. */
  lemma FlattenProvinceMembers(ps: seq<ProvinceNode>, r: Record)
    ensures r in Flatten(ps) <==> exists i :: 0 <= i < |ps| && r in DistrictRecords(ps[i], ps[i].districts)
  {
    if r in Flatten(ps) {
      FlattenOrigin(ps, r);
    }
    if exists i :: 0 <= i < |ps| && r in DistrictRecords(ps[i], ps[i].districts) {
      var i :| 0 <= i < |ps| && r in DistrictRecords(ps[i], ps[i].districts);
      FlattenPresent(ps, i, r);
    }
  }

  /** Every record of the flat list is a record of one of the provinces. */
  lemma {:induction false} FlattenOrigin(ps: seq<ProvinceNode>, r: Record)
    requires r in Flatten(ps)
    ensures exists i :: 0 <= i < |ps| && r in DistrictRecords(ps[i], ps[i].districts)
  {
    var init := ps[..|ps| - 1];
    var last := ps[|ps| - 1];
    assert Flatten(ps) == Flatten(init) + DistrictRecords(last, last.districts);
    if r in Flatten(init) {
      FlattenOrigin(init, r);
      var i :| 0 <= i < |init| && r in DistrictRecords(init[i], init[i].districts);
      assert init[i] == ps[i];
    } else {
      assert r in DistrictRecords(ps[|ps| - 1], ps[|ps| - 1].districts);
    }
  }

  /** Every record of every province is in the flat list. */
  lemma {:induction false} FlattenPresent(ps: seq<ProvinceNode>, i: nat, r: Record)
    requires i < |ps| && r in DistrictRecords(ps[i], ps[i].districts)
    ensures r in Flatten(ps)
  {
    var init := ps[..|ps| - 1];
    var last := ps[|ps| - 1];
    assert Flatten(ps) == Flatten(init) + DistrictRecords(last, last.districts);
    if i < |init| {
      assert init[i] == ps[i];
      FlattenPresent(init, i, r);
    }
  }

  /**
   * A record is in the flat list exactly when it is the record of some
   * subdistrict of some district of some province, carrying their names and codes.
   */
  lemma FlattenMembers(ps: seq<ProvinceNode>, r: Record)
    ensures r in Flatten(ps) <==>
            exists i, j, k :: 0 <= i < |ps| && 0 <= j < |ps[i].districts| && 0 <= k < |ps[i].districts[j].subdistricts|
                              && r == RecordOf(ps[i], ps[i].districts[j], ps[i].districts[j].subdistricts[k])
  {
    FlattenProvinceMembers(ps, r);
    forall i | 0 <= i < |ps| {
      DistrictRecordsMembers(ps[i], ps[i].districts, r);
    }
  }

  /** Province order is kept: the records of earlier provinces come first. */
  lemma {:induction false} FlattenAppend(a: seq<ProvinceNode>, b: seq<ProvinceNode>)
    ensures Flatten(a + b) == Flatten(a) + Flatten(b)
  {
    if b == [] {
      assert a + b == a;
    } else {
      var ab := a + b;
      var init := b[..|b| - 1];
      var p := b[|b| - 1];
      AppendLast(a, b);
      FlattenAppend(a, init);
      calc {
        Flatten(ab);
        Flatten(a + init) + DistrictRecords(p, p.districts);
        (Flatten(a) + Flatten(init)) + DistrictRecords(p, p.districts);
        Flatten(a) + (Flatten(init) + DistrictRecords(p, p.districts));
        Flatten(a) + Flatten(b);
      }
    }
  }
}
