/**
 * The published query layer: `ThaiAddrClass` of `src/index.ts` and `ThaiAddr`
 * of `src/index.mjs`, each a set of lodash chains over the constant list of
 * flat address records. Every query is a function of that list, passed here
 * as `addresses`; nothing modifies it.
 */
module ThaiAddr {
  import opened Wrappers
  import opened Lists
  import opened FlatData

  /** `{name, code}` */
  datatype MiniRecord = MiniRecord(name: string, code: string)

  // Field accessors, the iteratees the lodash calls name by string.
  function ZipOf(a: Record): string { a.zip }
  function DistrictCodeOf(a: Record): string { a.districtCode }
  function SubdistrictCodeOf(a: Record): string { a.subdistrictCode }
  function DistrictNameOf(a: Record): string { a.district }
  function SubdistrictNameOf(a: Record): string { a.subdistrict }
  function MiniName(m: MiniRecord): string { m.name }
  function MiniCode(m: MiniRecord): string { m.code }
  function Id(s: string): string { s }

  function ProvinceMini(a: Record): MiniRecord { MiniRecord(a.province, a.provinceCode) }
  function DistrictMini(a: Record): MiniRecord { MiniRecord(a.district, a.districtCode) }
  function SubdistrictMini(a: Record): MiniRecord { MiniRecord(a.subdistrict, a.subdistrictCode) }

  // Filter predicates.
  function ZipIs(zip: string): Record -> bool { (a: Record) => a.zip == zip }
  function SubdistrictCodeIs(code: string): Record -> bool { (a: Record) => a.subdistrictCode == code }
  function ProvinceCodeIs(code: string): Record -> bool { (a: Record) => a.provinceCode == code }
  function DistrictCodeIs(code: string): Record -> bool { (a: Record) => a.districtCode == code }

  // ---------------------------------------------------------------------------
  // Lookups
  // ---------------------------------------------------------------------------

  /** `findByZip`: exactly the records with that postal code, each as often as it occurs. */
  function FindByZip(addresses: seq<Record>, zip: string): (r: seq<Record>)
    ensures forall a :: multiset(r)[a] == if a.zip == zip then multiset(addresses)[a] else 0
  {
    FilterMembers(addresses, ZipIs(zip));
    Filter(addresses, ZipIs(zip))
  }

  /** The records of `findByZip` keep their order in the list. */
  lemma FindByZipInOrder(a: seq<Record>, b: seq<Record>, zip: string)
    ensures FindByZip(a + b, zip) == FindByZip(a, zip) + FindByZip(b, zip)
  {
    FilterAppend(a, b, ZipIs(zip));
  }

  /** `findBySubdistrictCode` of `index.ts`: the first record with that code, if any. */
  function FindBySubdistrictCode(addresses: seq<Record>, code: string): (r: Option<Record>)
    ensures r.None? <==> forall j :: 0 <= j < |addresses| ==> addresses[j].subdistrictCode != code
    ensures r.Some? ==> r.value in addresses && r.value.subdistrictCode == code
  {
    FilterNone(addresses, SubdistrictCodeIs(code));
    FilterMembers(addresses, SubdistrictCodeIs(code));
    var matches := Filter(addresses, SubdistrictCodeIs(code));
    assert matches != [] ==> matches[0] in multiset(matches);
    Head(matches)
  }

  /** The record found is the first one carrying the code. */
  lemma FindsFirst(addresses: seq<Record>, code: string, i: nat)
    requires i < |addresses| && addresses[i].subdistrictCode == code
    requires forall j :: 0 <= j < i ==> addresses[j].subdistrictCode != code
    ensures FindBySubdistrictCode(addresses, code) == Some(addresses[i])
  {
    FilterFirst(addresses, SubdistrictCodeIs(code), i);
  }

  /** `findBySubdistrictCode` of `index.mjs`: every record with that code, in order. */
  function FindAllBySubdistrictCode(addresses: seq<Record>, code: string): (r: seq<Record>)
    ensures forall a :: multiset(r)[a] == if a.subdistrictCode == code then multiset(addresses)[a] else 0
  {
    FilterMembers(addresses, SubdistrictCodeIs(code));
    Filter(addresses, SubdistrictCodeIs(code))
  }

  /** The records of the `.mjs` `findBySubdistrictCode` keep their order in the list. */
  lemma FindAllBySubdistrictCodeInOrder(a: seq<Record>, b: seq<Record>, code: string)
    ensures FindAllBySubdistrictCode(a + b, code) == FindAllBySubdistrictCode(a, code) + FindAllBySubdistrictCode(b, code)
  {
    FilterAppend(a, b, SubdistrictCodeIs(code));
  }

  /** The two versions of `findBySubdistrictCode` agree: the `.ts` one is the head of the `.mjs` list. */
  lemma SubdistrictLookupsAgree(addresses: seq<Record>, code: string)
    ensures FindBySubdistrictCode(addresses, code).None? <==> FindAllBySubdistrictCode(addresses, code) == []
    ensures FindBySubdistrictCode(addresses, code).Some? ==>
              FindBySubdistrictCode(addresses, code).value == FindAllBySubdistrictCode(addresses, code)[0]
  {
  }

  // ---------------------------------------------------------------------------
  // Listings
  // ---------------------------------------------------------------------------

  /** `zips`: the postal codes, without repeats, in ascending order. */
  function Zips(addresses: seq<Record>): seq<string> {
    SortBy(UniqBy(MapSeq(addresses, ZipOf), Id), Id)
  }

  /** `zips` is strictly ascending: sorted, without repeats. */
  lemma ZipsAscending(addresses: seq<Record>)
    ensures forall i, j :: 0 <= i < j < |Zips(addresses)| ==> Less(Zips(addresses)[i], Zips(addresses)[j])
  {
    UniqSorted(MapSeq(addresses, ZipOf), Id, Id);
  }

  /** `zips` holds exactly the postal codes of the records. */
  lemma ZipsComplete(addresses: seq<Record>)
    ensures forall z :: z in Zips(addresses) <==> exists i :: 0 <= i < |addresses| && addresses[i].zip == z
  {
    var zs := MapSeq(addresses, ZipOf);
    var u := UniqBy(zs, Id);
    UniqByKeeps(zs, Id);
    SortByMembers(u, Id);
    forall z
      ensures z in Zips(addresses) <==> exists i :: 0 <= i < |addresses| && addresses[i].zip == z
    {
      assert z in Zips(addresses) <==> z in u;
      assert Id(z) == z;
      if z in u {
        var i :| 0 <= i < |zs| && Id(zs[i]) == z;
        assert addresses[i].zip == z;
      }
      if exists i :: 0 <= i < |addresses| && addresses[i].zip == z {
        var i :| 0 <= i < |addresses| && addresses[i].zip == z;
        assert Id(zs[i]) == z;
        var x := FirstWithKey(zs, Id, z);
        assert Id(x) == x;
      }
    }
  }

  /** `provinces`: one `{name, code}` per province code, the first seen, sorted by name. */
  function Provinces(addresses: seq<Record>): seq<MiniRecord> {
    SortBy(UniqBy(MapSeq(addresses, ProvinceMini), MiniCode), MiniName)
  }

  lemma ProvincesListing(addresses: seq<Record>)
    ensures forall i, j :: 0 <= i < j < |Provinces(addresses)| ==>
              LessEq(Provinces(addresses)[i].name, Provinces(addresses)[j].name)
              && Provinces(addresses)[i].code != Provinces(addresses)[j].code
    ensures forall m :: m in Provinces(addresses) <==>
              KeyIn(MapSeq(addresses, ProvinceMini), MiniCode, m.code)
              && m == FirstWithKey(MapSeq(addresses, ProvinceMini), MiniCode, m.code)
    ensures forall n :: WithKey(Provinces(addresses), MiniName, n)
              == WithKey(UniqBy(MapSeq(addresses, ProvinceMini), MiniCode), MiniName, n)
  {
    var u := UniqBy(MapSeq(addresses, ProvinceMini), MiniCode);
    UniqSorted(MapSeq(addresses, ProvinceMini), MiniCode, MiniName);
    forall n ensures WithKey(Provinces(addresses), MiniName, n) == WithKey(u, MiniName, n) {
      SortByStable(u, MiniName, n);
    }
  }

  /** `districts`: one `{name, code}` per district code in the province, the first seen, sorted by name. */
  function Districts(addresses: seq<Record>, code: string): seq<MiniRecord> {
    MapSeq(SortBy(UniqBy(Filter(addresses, ProvinceCodeIs(code)), DistrictCodeOf), DistrictNameOf), DistrictMini)
  }

  /** The records of one province, in order. */
  function InProvince(addresses: seq<Record>, code: string): (r: seq<Record>)
    ensures forall a :: a in r <==> a in addresses && a.provinceCode == code
  {
    FilterMembers(addresses, ProvinceCodeIs(code));
    var r := Filter(addresses, ProvinceCodeIs(code));
    assert forall a :: a in r <==> a in multiset(r);
    assert forall a :: a in addresses <==> a in multiset(addresses);
    r
  }

  lemma DistrictsListing(addresses: seq<Record>, code: string)
    ensures forall i, j :: 0 <= i < j < |Districts(addresses, code)| ==>
              LessEq(Districts(addresses, code)[i].name, Districts(addresses, code)[j].name)
              && Districts(addresses, code)[i].code != Districts(addresses, code)[j].code
    ensures forall m :: m in Districts(addresses, code) <==>
              KeyIn(InProvince(addresses, code), DistrictCodeOf, m.code)
              && m == DistrictMini(FirstWithKey(InProvince(addresses, code), DistrictCodeOf, m.code))
    ensures forall n :: WithKey(Districts(addresses, code), MiniName, n)
              == MapSeq(WithKey(UniqBy(InProvince(addresses, code), DistrictCodeOf), DistrictNameOf, n), DistrictMini)
  {
    var f := InProvince(addresses, code);
    UniqSorted(f, DistrictCodeOf, DistrictNameOf);
    var u := UniqBy(f, DistrictCodeOf);
    var s := SortBy(u, DistrictNameOf);
    MiniListing(s, DistrictCodeOf, DistrictNameOf, DistrictMini);
    forall n ensures WithKey(Districts(addresses, code), MiniName, n) == MapSeq(WithKey(u, DistrictNameOf, n), DistrictMini) {
      WithKeyMap(s, DistrictMini, DistrictNameOf, MiniName, n);
      SortByStable(u, DistrictNameOf, n);
    }
  }

  /** `subdistricts`: one `{name, code}` per subdistrict code in the district, the first seen, sorted by name. */
  function Subdistricts(addresses: seq<Record>, code: string): seq<MiniRecord> {
    MapSeq(SortBy(UniqBy(Filter(addresses, DistrictCodeIs(code)), SubdistrictCodeOf), SubdistrictNameOf), SubdistrictMini)
  }

  /** The records of one district, in order. */
  function InDistrict(addresses: seq<Record>, code: string): (r: seq<Record>)
    ensures forall a :: a in r <==> a in addresses && a.districtCode == code
  {
    FilterMembers(addresses, DistrictCodeIs(code));
    var r := Filter(addresses, DistrictCodeIs(code));
    assert forall a :: a in r <==> a in multiset(r);
    assert forall a :: a in addresses <==> a in multiset(addresses);
    r
  }

  lemma SubdistrictsListing(addresses: seq<Record>, code: string)
    ensures forall i, j :: 0 <= i < j < |Subdistricts(addresses, code)| ==>
              LessEq(Subdistricts(addresses, code)[i].name, Subdistricts(addresses, code)[j].name)
              && Subdistricts(addresses, code)[i].code != Subdistricts(addresses, code)[j].code
    ensures forall m :: m in Subdistricts(addresses, code) <==>
              KeyIn(InDistrict(addresses, code), SubdistrictCodeOf, m.code)
              && m == SubdistrictMini(FirstWithKey(InDistrict(addresses, code), SubdistrictCodeOf, m.code))
    ensures forall n :: WithKey(Subdistricts(addresses, code), MiniName, n)
              == MapSeq(WithKey(UniqBy(InDistrict(addresses, code), SubdistrictCodeOf), SubdistrictNameOf, n), SubdistrictMini)
  {
    var f := InDistrict(addresses, code);
    UniqSorted(f, SubdistrictCodeOf, SubdistrictNameOf);
    var u := UniqBy(f, SubdistrictCodeOf);
    var s := SortBy(u, SubdistrictNameOf);
    MiniListing(s, SubdistrictCodeOf, SubdistrictNameOf, SubdistrictMini);
    forall n ensures WithKey(Subdistricts(addresses, code), MiniName, n) == MapSeq(WithKey(u, SubdistrictNameOf, n), SubdistrictMini) {
      WithKeyMap(s, SubdistrictMini, SubdistrictNameOf, MiniName, n);
      SortByStable(u, SubdistrictNameOf, n);
    }
  }

  /** Projecting a listing to `{name, code}` keeps its order and its distinct codes. */
  lemma MiniListing(s: seq<Record>, code: Record -> string, name: Record -> string, mini: Record -> MiniRecord)
    requires forall a :: mini(a) == MiniRecord(name(a), code(a))
    requires SortedBy(s, name) && DistinctKeys(s, code)
    ensures forall i, j :: 0 <= i < j < |MapSeq(s, mini)| ==>
              LessEq(MapSeq(s, mini)[i].name, MapSeq(s, mini)[j].name) && MapSeq(s, mini)[i].code != MapSeq(s, mini)[j].code
    ensures forall m :: m in MapSeq(s, mini) <==> exists a: Record :: a in s && code(a) == m.code && m == mini(a)
  {
    var r := MapSeq(s, mini);
    forall m: MiniRecord | m in r
      ensures exists a: Record :: a in s && code(a) == m.code && m == mini(a)
    {
      var i :| 0 <= i < |r| && r[i] == m;
      assert s[i] in s && m == mini(s[i]);
    }
    forall m: MiniRecord | exists a: Record :: a in s && code(a) == m.code && m == mini(a)
      ensures m in r
    {
      var a :| a in s && code(a) == m.code && m == mini(a);
      var i :| 0 <= i < |s| && s[i] == a;
      assert r[i] == m;
    }
  }
}
