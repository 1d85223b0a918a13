/** The storage-element registry: the fixed list of known grid storage
    elements, the standard storage path of a logical file on one of them,
    the closeness measure between two of them, and the reverse lookup from
    a replica locator to the element that holds it. */
module Storage {
  import opened Wrappers
  import opened Strings
  import PosixPath

  datatype StorageType = Tape | Disk

  /** The `type` string of a storage element. */
  function TypeName(t: StorageType): string {
    match t
    case Tape => "tape"
    case Disk => "disk"
  }

  /** A grid storage element. `location` is a slash-separated place such as
      `/europe/uk/ral`; it only serves to measure distances. */
  datatype StorageElement = StorageElement(
    name: string,
    host: string,
    storageType: StorageType,
    location: string,
    basepath: string)

  /** `StorageElement.get_storage_path` as written: `posixpath.join` of the
      base path and the logical path. Logical paths are absolute, so the base
      path is discarded for every one of them. */
  function GetStoragePathAsWritten(se: StorageElement, remotepath: string): (r: string)
    ensures PosixPath.IsAbs(remotepath) ==> r == remotepath
    ensures !PosixPath.IsAbs(remotepath) ==> StartsWith(r, se.basepath) && EndsWith(r, remotepath)
  {
    PosixPath.Join(se.basepath, remotepath)
  }

  /** An absolute logical path loses the element's base path, host included. */
  lemma StoragePathAsWrittenDropsHost()
    ensures GetStoragePathAsWritten(SEs[0], "/nd280/test") == "/nd280/test"
    ensures !Contains("/nd280/test", SEs[0].host)
  {
    var p := "/nd280/test";
    var h := SEs[0].host;
    ContainsIffOccurs(p, h);
    assert |h| > |p|;
  }

  /** The standard storage path of a logical file: the element's base path
      followed by the logical path, so the logical path can be read back
      after the base path. */
  function GetStoragePath(se: StorageElement, remotepath: string): (r: string)
    ensures StartsWith(r, se.basepath) && r[|se.basepath|..] == remotepath
    ensures EndsWith(r, remotepath)
  {
    se.basepath + remotepath
  }

  /** A storage path holds the host named in the element's base path. */
  lemma StoragePathContainsHost(se: StorageElement, remotepath: string)
    requires Contains(se.basepath, se.host)
    ensures Contains(GetStoragePath(se, remotepath), se.host)
  {
    var r := GetStoragePath(se, remotepath);
    ContainsIffOccurs(se.basepath, se.host);
    var i :| OccursAt(se.basepath, se.host, i);
    assert r[i..i + |se.host|] == se.basepath[i..i + |se.host|];
    ContainsFromOccurs(r, se.host, i);
  }

  /** `posixpath.commonprefix` of two strings: their longest common prefix
      (taking it between the smaller and the larger of the two, as Python
      does, yields the same string). */
  function CommonPrefix(a: string, b: string): (p: string)
    ensures StartsWith(a, p) && StartsWith(b, p)
    ensures |p| == |a| || |p| == |b| || a[|p|] != b[|p|]
  {
    if a != [] && b != [] && a[0] == b[0] then [a[0]] + CommonPrefix(a[1..], b[1..]) else []
  }

  lemma {:induction false} CommonPrefixSymmetric(a: string, b: string)
    ensures CommonPrefix(a, b) == CommonPrefix(b, a)
  {
    if a != [] && b != [] && a[0] == b[0] {
      CommonPrefixSymmetric(a[1..], b[1..]);
    }
  }

  lemma {:induction false} CommonPrefixSelf(a: string)
    ensures CommonPrefix(a, a) == a
  {
    if a != [] {
      CommonPrefixSelf(a[1..]);
      assert [a[0]] + a[1..] == a;
    }
  }

  function Min(x: int, y: int): int {
    if x < y then x else y
  }

  /** `StorageElement.get_distance`: minus the number of `/` in the common
      prefix of the two locations; the more negative, the closer. */
  function GetDistance(a: StorageElement, b: StorageElement): (r: int)
    ensures r <= 0
  {
    -(Count(CommonPrefix(a.location, b.location), '/') as int)
  }

  /** The distance never exceeds 0 and never goes below minus the `/` count
      of either location. */
  lemma DistanceBounds(a: StorageElement, b: StorageElement)
    ensures -Min(Count(a.location, '/'), Count(b.location, '/')) <= GetDistance(a, b) <= 0
  {
    var common := CommonPrefix(a.location, b.location);
    CountPrefix(a.location, |common|, '/');
    CountPrefix(b.location, |common|, '/');
  }

  /** The distance does not depend on the order of its arguments. */
  lemma DistanceSymmetric(a: StorageElement, b: StorageElement)
    ensures GetDistance(a, b) == GetDistance(b, a)
  {
    CommonPrefixSymmetric(a.location, b.location);
  }

  /** An element is as close to itself as to anything: its distance to
      itself is minus the number of `/` in its location. */
  lemma DistanceToSelf(a: StorageElement, b: StorageElement)
    ensures GetDistance(a, a) == -(Count(a.location, '/') as int)
    ensures GetDistance(a, a) <= GetDistance(a, b)
  {
    CommonPrefixSelf(a.location);
    DistanceBounds(a, b);
  }

  /** The registered storage elements, in lookup order. */
  const SEs: seq<StorageElement> := [
    StorageElement("RAL-LCG22-tape", "srm-t2k.gridpp.rl.ac.uk", Tape, "/europe/uk/ral",
      "srm://srm-t2k.gridpp.rl.ac.uk/castor/ads.rl.ac.uk/prod/t2k.org"),
    StorageElement("UKI-SOUTHGRID-RALPP-disk", "heplnx204.pp.rl.ac.uk", Disk, "/europe/uk/ral",
      "rm://heplnx204.pp.rl.ac.uk/pnfs/pp.rl.ac.uk/data/t2k/t2k.org"),
    StorageElement("CA-TRIUMF-T2K1-disk", "t2ksrm.nd280.org", Disk, "/americas/ca/ubc",
      "srm://"),
    StorageElement("JP-KEK-CRC-02-disk", "kek2-se01.cc.kek.jp", Disk, "/asia/jp/kek",
      "srm://")
  ]

  /** The registry's names are pairwise distinct and every location starts
      with `/`. */
  lemma RegistryWellFormed()
    ensures forall i, j :: 0 <= i < j < |SEs| ==> SEs[i].name != SEs[j].name
    ensures forall i :: 0 <= i < |SEs| ==> StartsWith(SEs[i].location, "/")
  {
  }

  /** The two RAL elements share all three levels of their location. */
  lemma RegistryDistanceSameSite()
    ensures GetDistance(SEs[0], SEs[1]) == -3
  {
    var loc := "/europe/uk/ral";
    assert SEs[0].location == loc && SEs[1].location == loc;
    CommonPrefixSelf(loc);
    LocationSlashes();
  }

  lemma LocationSlashes()
    ensures Count("/europe/uk/ral", '/') == 3
  {
  }

  /** Two strings that agree on their first `k` characters and differ on the
      next have those `k` characters as their common prefix. */
  lemma {:induction false} CommonPrefixUpTo(a: string, b: string, k: nat)
    requires k < |a| && k < |b| && a[..k] == b[..k] && a[k] != b[k]
    ensures CommonPrefix(a, b) == a[..k]
  {
    if k > 0 {
      assert a[0] == a[..k][0] == b[..k][0] == b[0];
      assert a[1..][..k - 1] == a[1..k] == b[1..k] == b[1..][..k - 1];
      CommonPrefixUpTo(a[1..], b[1..], k - 1);
      assert [a[0]] + a[1..k] == a[..k];
    }
  }

  /** Two elements whose locations agree on `k` characters and then differ
      are as far apart as the `/` in those `k` characters say. */
  lemma DistanceWhenDiverging(a: StorageElement, b: StorageElement, k: nat)
    requires k < |a.location| && k < |b.location|
    requires a.location[..k] == b.location[..k] && a.location[k] != b.location[k]
    ensures GetDistance(a, b) == -(Count(a.location[..k], '/') as int)
  {
    CommonPrefixUpTo(a.location, b.location, k);
  }

  /** Two locations that start with `/` and differ on the next character are
      one step apart. */
  lemma DistanceAtFirstLevel(a: StorageElement, b: StorageElement)
    requires |a.location| > 1 && |b.location| > 1
    requires a.location[0] == '/' == b.location[0] && a.location[1] != b.location[1]
    ensures GetDistance(a, b) == -1
  {
    assert a.location[..1] == ['/'] == b.location[..1];
    DistanceWhenDiverging(a, b, 1);
  }

  /** Two locations that share `/` and one more character that is not `/`,
      then differ, are still one step apart. */
  lemma DistanceAtSecondCharacter(a: StorageElement, b: StorageElement)
    requires |a.location| > 2 && |b.location| > 2
    requires a.location[0] == '/' == b.location[0]
    requires a.location[1] == b.location[1] != '/' && a.location[2] != b.location[2]
    ensures GetDistance(a, b) == -1
  {
    assert a.location[..2] == ['/', a.location[1]] == b.location[..2];
    DistanceWhenDiverging(a, b, 2);
  }

  /** Elements on different continents share only the leading `/`. */
  lemma RegistryDistanceOtherContinents()
    ensures GetDistance(SEs[0], SEs[2]) == -1
    ensures GetDistance(SEs[0], SEs[3]) == -1
    ensures GetDistance(SEs[2], SEs[3]) == -1
  {
    DistanceAtFirstLevel(SEs[0], SEs[2]);
    DistanceAtFirstLevel(SEs[0], SEs[3]);
    DistanceAtSecondCharacter(SEs[2], SEs[3]);
  }

  /** The position of the first element of `ses` whose host occurs in `path`. */
  function FirstHostMatch(ses: seq<StorageElement>, path: string): (r: Option<nat>)
    ensures r.Some? ==> r.value < |ses| && Contains(path, ses[r.value].host)
    ensures r.Some? ==> forall j :: 0 <= j < r.value ==> !Contains(path, ses[j].host)
    ensures r.None? ==> forall j :: 0 <= j < |ses| ==> !Contains(path, ses[j].host)
  {
    if ses == [] then None
    else if Contains(path, ses[0].host) then Some(0)
    else match FirstHostMatch(ses[1..], path)
      case None => None
      case Some(i) => Some(i + 1)
  }

  /** `get_SE_by_path`: the first registered element whose host is a
      substring of the locator, or `None`. */
  function GetSEByPath(path: string): (r: Option<StorageElement>)
    ensures r.None? <==> forall j :: 0 <= j < |SEs| ==> !Contains(path, SEs[j].host)
    ensures r.Some? ==> exists i :: 0 <= i < |SEs| && r.value == SEs[i] && Contains(path, SEs[i].host)
                                   && forall j :: 0 <= j < i ==> !Contains(path, SEs[j].host)
  {
    match FirstHostMatch(SEs, path)
    case None => None
    case Some(i) => Some(SEs[i])
  }

  /** A later element is never returned while an earlier one matches too. */
  lemma GetSEByPathPrefersEarlier(path: string, i: nat, j: nat)
    requires i < j < |SEs|
    requires Contains(path, SEs[i].host)
    ensures GetSEByPath(path) != Some(SEs[j])
  {
    RegistryWellFormed();
  }

  lemma {:induction false} ContainsTransitive(s: string, mid: string, sub: string)
    requires Contains(s, mid) && Contains(mid, sub)
    ensures Contains(s, sub)
  {
    ContainsIffOccurs(s, mid);
    ContainsIffOccurs(mid, sub);
    var i :| OccursAt(s, mid, i);
    var k :| OccursAt(mid, sub, k);
    forall t | 0 <= t < |sub| ensures s[i + k + t] == sub[t] {
      assert s[i + k + t] == s[i..i + |mid|][k + t];
      assert mid[k..k + |sub|][t] == mid[k + t];
    }
    assert s[i + k..i + k + |sub|] == sub;
    ContainsFromOccurs(s, sub, i + k);
  }

  /** An element whose host contains the host of an earlier element can
      never be found by `get_SE_by_path`: the earlier one always wins. */
  lemma ShadowedHostNeverFound(path: string, i: nat, j: nat)
    requires i < j < |SEs|
    requires Contains(SEs[j].host, SEs[i].host)
    ensures GetSEByPath(path) != Some(SEs[j])
  {
    if Contains(path, SEs[j].host) {
      ContainsTransitive(path, SEs[j].host, SEs[i].host);
      GetSEByPathPrefersEarlier(path, i, j);
    }
  }
}
