/** Helpers above the backend: a recursive walk over the logical namespace
    and two consistency checks on the replicas of a file. The data-manager
    calls they make are given as functions. */
module Utils {
  import opened Wrappers
  import PosixPath
  import Storage
  import opened Backends

  /** The data-manager calls the helpers use: whether a logical path is a
      directory, the names listed in a directory, the replica locators of a
      file, the checksum of a replica, and the storage-element queries. */
  datatype Api = Api(
    isDir: string -> bool,
    ls: string -> seq<string>,
    replicas: string -> seq<string>,
    checksum: string -> string,
    getSE: string -> Option<Storage.StorageElement>,
    hasReplica: (Storage.StorageElement, string) -> bool)

  /** Whether the optional regular expression finds a match in a name. */
  predicate Matches(regex: Option<string -> bool>, name: string) {
    regex.None? || regex.value(name)
  }

  /** `remote_iter_recursively`: a path that is not a directory yields
      itself; a directory yields, in listing order, what its matching
      children yield, with the same expression applied at every level. Only
      non-directories are yielded. `fuel` bounds the depth; `None` means the
      tree is deeper than that. */
  function IterRecursively(api: Api, remotepath: string, regex: Option<string -> bool>, fuel: nat)
    : (r: Option<seq<string>>)
    ensures r.Some? ==> forall q :: q in r.value ==> !api.isDir(q)
    ensures !api.isDir(remotepath) ==> r == Some([remotepath])
    decreases fuel, 0, 0
  {
    if !api.isDir(remotepath) then Some([remotepath])
    else if fuel == 0 then None
    else IterChildren(api, remotepath, api.ls(remotepath), regex, fuel - 1)
  }

  /** The paths yielded under the children `names` of `parent`. */
  function IterChildren(api: Api, parent: string, names: seq<string>, regex: Option<string -> bool>, fuel: nat)
    : (r: Option<seq<string>>)
    ensures r.Some? ==> forall q :: q in r.value ==> !api.isDir(q)
    decreases fuel, 1, |names|
  {
    if names == [] then Some([])
    else
      var rest := IterChildren(api, parent, names[1..], regex, fuel);
      if !Matches(regex, names[0]) then rest
      else
        var here := IterRecursively(api, PosixPath.Join(parent, names[0]), regex, fuel);
        if here.None? || rest.None? then None else Some(here.value + rest.value)
  }

  /** `q` is yielded by the walk of child `name` of `parent`, which the
      expression matches. */
  predicate ChildYields(api: Api, parent: string, name: string, regex: Option<string -> bool>, fuel: nat, q: string) {
    var walk := IterRecursively(api, PosixPath.Join(parent, name), regex, fuel);
    Matches(regex, name) && walk.Some? && q in walk.value
  }

  /** A completed walk over `names` completed the walk of every matching
      child. */
  lemma {:induction false} IterChildrenComplete(api: Api, parent: string, names: seq<string>, regex: Option<string -> bool>, fuel: nat)
    requires IterChildren(api, parent, names, regex, fuel).Some?
    ensures forall i :: 0 <= i < |names| && Matches(regex, names[i]) ==>
              IterRecursively(api, PosixPath.Join(parent, names[i]), regex, fuel).Some?
    decreases |names|
  {
    if names != [] {
      var tail := names[1..];
      var here := IterRecursively(api, PosixPath.Join(parent, names[0]), regex, fuel);
      assert IterChildren(api, parent, tail, regex, fuel).Some?;
      assert Matches(regex, names[0]) ==> here.Some?;
      IterChildrenComplete(api, parent, tail, regex, fuel);
      forall i | 1 <= i < |names| && Matches(regex, names[i])
        ensures IterRecursively(api, PosixPath.Join(parent, names[i]), regex, fuel).Some?
      {
        assert names[i] == tail[i - 1];
      }
    }
  }

  /** What a completed walk over `names` yields is, in both directions,
      what the walks of the matching children yield, each child's path being
      joined to `parent` and walked with the same expression. */
  lemma {:induction false} IterChildrenMembers(api: Api, parent: string, names: seq<string>, regex: Option<string -> bool>, fuel: nat)
    requires IterChildren(api, parent, names, regex, fuel).Some?
    ensures forall q :: q in IterChildren(api, parent, names, regex, fuel).value <==>
              exists i :: 0 <= i < |names| && ChildYields(api, parent, names[i], regex, fuel, q)
    decreases |names|
  {
    if names != [] {
      var tail := names[1..];
      IterChildrenMembers(api, parent, tail, regex, fuel);
      var r := IterChildren(api, parent, names, regex, fuel).value;
      var rest := IterChildren(api, parent, tail, regex, fuel).value;
      forall q ensures q in r <==> exists i :: 0 <= i < |names| && ChildYields(api, parent, names[i], regex, fuel, q) {
        if q in r && !ChildYields(api, parent, names[0], regex, fuel, q) {
          assert q in rest;
          var i :| 0 <= i < |tail| && ChildYields(api, parent, tail[i], regex, fuel, q);
          assert names[i + 1] == tail[i];
        }
        if exists i :: 0 <= i < |names| && ChildYields(api, parent, names[i], regex, fuel, q) {
          var i :| 0 <= i < |names| && ChildYields(api, parent, names[i], regex, fuel, q);
          if i > 0 {
            assert names[i] == tail[i - 1];
            assert q in rest;
          }
        }
      }
    }
  }

  /** The walk over a listing is the walk over each of its parts, in order:
      it completes when both parts' walks do, and yields the first part's
      paths before the second's. A single name yields its own walk when it
      matches and nothing otherwise. */
  lemma {:induction false} IterChildrenAppend(api: Api, parent: string, names1: seq<string>, names2: seq<string>,
                                              regex: Option<string -> bool>, fuel: nat)
    ensures var r1 := IterChildren(api, parent, names1, regex, fuel);
            var r2 := IterChildren(api, parent, names2, regex, fuel);
            IterChildren(api, parent, names1 + names2, regex, fuel)
            == if r1.Some? && r2.Some? then Some(r1.value + r2.value) else None
    decreases |names1|
  {
    if names1 == [] {
      assert names1 + names2 == names2;
      var r2 := IterChildren(api, parent, names2, regex, fuel);
      if r2.Some? {
        assert [] + r2.value == r2.value;
      }
    } else {
      var names := names1 + names2;
      assert names[0] == names1[0] && names[1..] == names1[1..] + names2;
      IterChildrenAppend(api, parent, names1[1..], names2, regex, fuel);
      var here := IterRecursively(api, PosixPath.Join(parent, names1[0]), regex, fuel);
      var r1 := IterChildren(api, parent, names1[1..], regex, fuel);
      var r2 := IterChildren(api, parent, names2, regex, fuel);
      if here.Some? && r1.Some? && r2.Some? {
        Strings.AppendAssoc(here.value, r1.value, r2.value);
      }
    }
  }

  /** A single name: its own walk when the expression matches it, nothing
      otherwise. */
  lemma IterChildrenSingle(api: Api, parent: string, name: string, regex: Option<string -> bool>, fuel: nat)
    ensures IterChildren(api, parent, [name], regex, fuel)
            == if Matches(regex, name) then IterRecursively(api, PosixPath.Join(parent, name), regex, fuel) else Some([])
  {
    assert [name][1..] == [];
    var here := IterRecursively(api, PosixPath.Join(parent, name), regex, fuel);
    if here.Some? {
      assert here.value + [] == here.value;
    }
  }

  /** More depth never changes a walk that completed. */
  lemma {:induction false} IterRecursivelyFuel(api: Api, remotepath: string, regex: Option<string -> bool>, fuel: nat)
    requires IterRecursively(api, remotepath, regex, fuel).Some?
    ensures IterRecursively(api, remotepath, regex, fuel + 1) == IterRecursively(api, remotepath, regex, fuel)
    decreases fuel, 0, 0
  {
    if api.isDir(remotepath) {
      IterChildrenFuel(api, remotepath, api.ls(remotepath), regex, fuel - 1);
    }
  }

  lemma {:induction false} IterChildrenFuel(api: Api, parent: string, names: seq<string>, regex: Option<string -> bool>, fuel: nat)
    requires IterChildren(api, parent, names, regex, fuel).Some?
    ensures IterChildren(api, parent, names, regex, fuel + 1) == IterChildren(api, parent, names, regex, fuel)
    decreases fuel, 1, |names|
  {
    if names != [] {
      IterChildrenFuel(api, parent, names[1..], regex, fuel);
      if Matches(regex, names[0]) {
        IterRecursivelyFuel(api, PosixPath.Join(parent, names[0]), regex, fuel);
      }
    }
  }

  /** An expression every name matches walks the same tree as no expression. */
  lemma {:induction false} IterAcceptingAll(api: Api, remotepath: string, fuel: nat)
    ensures IterRecursively(api, remotepath, Some(_ => true), fuel) == IterRecursively(api, remotepath, None, fuel)
    decreases fuel, 0, 0
  {
    if api.isDir(remotepath) && fuel > 0 {
      IterChildrenAcceptingAll(api, remotepath, api.ls(remotepath), fuel - 1);
    }
  }

  lemma {:induction false} IterChildrenAcceptingAll(api: Api, parent: string, names: seq<string>, fuel: nat)
    ensures IterChildren(api, parent, names, Some(_ => true), fuel) == IterChildren(api, parent, names, None, fuel)
    decreases fuel, 1, |names|
  {
    if names != [] {
      IterChildrenAcceptingAll(api, parent, names[1..], fuel);
      IterAcceptingAll(api, PosixPath.Join(parent, names[0]), fuel);
    }
  }

  lemma {:induction false} IterChildrenRejectingAll(api: Api, parent: string, names: seq<string>, fuel: nat)
    ensures IterChildren(api, parent, names, Some(_ => false), fuel) == Some([])
  {
    if names != [] {
      IterChildrenRejectingAll(api, parent, names[1..], fuel);
    }
  }

  /** Unlike the pattern of a recursive `replicate`, the expression filters
      the top directory too: one that matches nothing yields nothing from a
      directory. */
  lemma IterRejectingAll(api: Api, remotepath: string, fuel: nat)
    requires api.isDir(remotepath) && fuel > 0
    ensures IterRecursively(api, remotepath, Some(_ => false), fuel) == Some([])
  {
    IterChildrenRejectingAll(api, remotepath, api.ls(remotepath), fuel - 1);
  }

  /** Whether every checksum of `reps` equals `checksum`. */
  function AllEqual(api: Api, reps: seq<string>, checksum: string): (r: bool)
    ensures r <==> forall i :: 0 <= i < |reps| ==> api.checksum(reps[i]) == checksum
  {
    if reps == [] then true
    else if api.checksum(reps[0]) != checksum then false
    else
      assert forall i :: 1 <= i < |reps| ==> reps[i] == reps[1..][i - 1];
      AllEqual(api, reps[1..], checksum)
  }

  /** `check_checksums`: `False` if the first replica's checksum holds a
      `?`, otherwise whether every other replica's checksum equals it. A file
      without replicas raises `IndexError`. */
  function CheckChecksums(api: Api, remotepath: string): (r: Result<bool, Error>)
    ensures r.Failure? <==> api.replicas(remotepath) == []
    ensures r.Failure? ==> r.error == IndexError
    ensures r.Success? ==> var reps := api.replicas(remotepath);
              (r.value <==> '?' !in api.checksum(reps[0]) && forall i :: 1 <= i < |reps| ==> api.checksum(reps[i]) == api.checksum(reps[0]))
  {
    var reps := api.replicas(remotepath);
    if reps == [] then Failure(IndexError)
    else
      var checksum := api.checksum(reps[0]);
      if '?' in checksum then Success(false)
      else
        assert forall i :: 1 <= i < |reps| ==> reps[i] == reps[1..][i - 1];
        Success(AllEqual(api, reps[1..], checksum))
  }

  /** A passed check means all replicas carry one and the same checksum, and
      it is a known one. */
  lemma CheckedChecksumsAgree(api: Api, remotepath: string, i: nat, j: nat)
    requires CheckChecksums(api, remotepath) == Success(true)
    requires i < |api.replicas(remotepath)| && j < |api.replicas(remotepath)|
    ensures api.checksum(api.replicas(remotepath)[i]) == api.checksum(api.replicas(remotepath)[j])
    ensures '?' !in api.checksum(api.replicas(remotepath)[i])
  {
  }

  /** A storage element as `check_replicas` accepts it: by name or as is. */
  datatype SERef = Name(name: string) | Element(se: Storage.StorageElement)

  function Resolved(api: Api, ref: SERef): Option<Storage.StorageElement> {
    match ref
    case Name(n) => api.getSE(n)
    case Element(se) => Some(se)
  }

  /** `check_replicas`: every name is resolved before any replica is looked
      at, and the first name that does not resolve raises; then the answer is
      whether every element holds the file (so `True` for no elements). */
  method CheckReplicas(api: Api, remotepath: string, ses: seq<SERef>) returns (r: Result<bool, Error>)
    ensures r.Success? <==> forall i :: 0 <= i < |ses| ==> Resolved(api, ses[i]).Some?
    ensures r.Failure? ==> exists i :: 0 <= i < |ses| && Resolved(api, ses[i]).None?
                                     && (forall j :: 0 <= j < i ==> Resolved(api, ses[j]).Some?)
                                     && r.error == BackendException("Not a valid storage element: " + ses[i].name)
    ensures r.Success? ==> (r.value <==> forall i :: 0 <= i < |ses| ==> api.hasReplica(Resolved(api, ses[i]).value, remotepath))
  {
    var checkSes: seq<Storage.StorageElement> := [];
    for i := 0 to |ses|
      invariant |checkSes| == i
      invariant forall j :: 0 <= j < i ==> Resolved(api, ses[j]) == Some(checkSes[j])
    {
      var se := ses[i];
      if se.Name? {
        var obj := api.getSE(se.name);
        if obj.None? {
          return Failure(BackendException("Not a valid storage element: " + se.name));
        }
        checkSes := checkSes + [obj.value];
      } else {
        checkSes := checkSes + [se.se];
      }
    }
    for i := 0 to |checkSes|
      invariant forall j :: 0 <= j < i ==> api.hasReplica(checkSes[j], remotepath)
    {
      if !api.hasReplica(checkSes[i], remotepath) {
        return Success(false);
      }
    }
    return Success(true);
  }
}
