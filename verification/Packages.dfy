/** Cores per socket and nested virtualization: the parts of a topology that no allocation depends on. */
module Packages {
  import opened Ordered
  import opened Text

  /** The number in the file, or the default if it is missing or malformed. */
  function ReadInt(files: map<nat, string>, id: nat, default: int): int {
    if id in files && IntValue(files[id]).Some? then IntValue(files[id]).value else default
  }

  /** The core_id and physical_package_id files of the cpus. */
  datatype CoreFiles = CoreFiles(coreIds: map<nat, string>, packageIds: map<nat, string>) {
    function CoreOf(id: nat): int {
      ReadInt(coreIds, id, id)
    }

    function PackageOf(id: nat): int {
      ReadInt(packageIds, id, 0)
    }
  }

  /** The distinct core ids on package p. */
  function CoresOn(files: CoreFiles, ids: seq<nat>, p: int): set<int> {
    set id | id in ids && files.PackageOf(id) == p :: files.CoreOf(id)
  }

  function PackageIds(files: CoreFiles, ids: seq<nat>): set<int> {
    set id | id in ids :: files.PackageOf(id)
  }

  /** The cores of each package. */
  function PackagesOf(files: CoreFiles, ids: seq<nat>): map<int, set<int>> {
    map p | p in PackageIds(files, ids) :: CoresOn(files, ids, p)
  }

  /** package_to_cores.setdefault(package, set()).add(core) */
  function WithCore(packages: map<int, set<int>>, package: int, core: int): map<int, set<int>> {
    packages[package := (if package in packages then packages[package] else {}) + {core}]
  }

  lemma CoresOnNext(files: CoreFiles, front: seq<nat>, last: nat, p: int)
    ensures CoresOn(files, front + [last], p) ==
      CoresOn(files, front, p) + if files.PackageOf(last) == p then {files.CoreOf(last)} else {}
  {
    assert forall id :: id in front + [last] <==> id in front || id == last;
  }

  lemma PackageIdsNext(files: CoreFiles, front: seq<nat>, last: nat)
    ensures PackageIds(files, front + [last]) == PackageIds(files, front) + {files.PackageOf(last)}
  {
    assert forall id :: id in front + [last] <==> id in front || id == last;
  }

  lemma NoCoresElsewhere(files: CoreFiles, ids: seq<nat>, p: int)
    requires p !in PackageIds(files, ids)
    ensures CoresOn(files, ids, p) == {}
  {
    forall id | id in ids ensures files.PackageOf(id) != p {
      assert files.PackageOf(id) in PackageIds(files, ids);
    }
  }

  lemma PackageNext(files: CoreFiles, front: seq<nat>, last: nat, p: int)
    requires p in PackageIds(files, front + [last])
    ensures CoresOn(files, front + [last], p) ==
      if p != files.PackageOf(last) then CoresOn(files, front, p)
      else (if p in PackageIds(files, front) then CoresOn(files, front, p) else {}) + {files.CoreOf(last)}
  {
    CoresOnNext(files, front, last, p);
    if p !in PackageIds(files, front) {
      NoCoresElsewhere(files, front, p);
    }
  }

  lemma PackagesNext(files: CoreFiles, front: seq<nat>, last: nat)
    ensures PackagesOf(files, front + [last])
      == WithCore(PackagesOf(files, front), files.PackageOf(last), files.CoreOf(last))
  {
    var before, after := PackagesOf(files, front), PackagesOf(files, front + [last]);
    var expected := WithCore(before, files.PackageOf(last), files.CoreOf(last));
    PackageIdsNext(files, front, last);
    assert after.Keys == expected.Keys;
    forall p | p in after ensures after[p] == expected[p] {
      PackageNext(files, front, last, p);
      assert p in before ==> before[p] == CoresOn(files, front, p);
    }
  }

  /** n is the size of the largest of the sets. */
  predicate IsLargest(n: nat, sets: map<int, set<int>>) {
    (exists p :: p in sets && |sets[p]| == n) && forall p :: p in sets ==> |sets[p]| <= n
  }

  lemma {:induction false} LargestExists(sets: map<int, set<int>>)
    requires sets != map[]
    ensures exists n: nat :: IsLargest(n, sets)
    decreases |sets|
  {
    assert sets.Keys != {};
    var p := Pick(sets.Keys);
    var rest := sets - {p};
    if rest == map[] {
      assert forall q :: q in sets ==> q == p || q in rest;
      assert IsLargest(|sets[p]|, sets);
    } else {
      LargestExists(rest);
      var n: nat :| IsLargest(n, rest);
      assert forall q :: q in sets ==> q == p || q in rest;
      var q :| q in rest && |rest[q]| == n;
      if n < |sets[p]| {
        assert IsLargest(|sets[p]|, sets);
      } else {
        assert q in sets && |sets[q]| == n;
        assert IsLargest(n, sets);
      }
    }
  }

  ghost function LargestSize(sets: map<int, set<int>>): (n: nat)
    requires sets != map[]
    ensures IsLargest(n, sets)
  {
    LargestExists(sets);
    var n: nat :| IsLargest(n, sets);
    n
  }

  /** max(len(cores) for cores in packages.values()) */
  method Largest(sets: map<int, set<int>>) returns (n: nat)
    requires sets != map[]
    ensures n == LargestSize(sets)
  {
    var pending := sets.Keys;
    ghost var some := Pick(pending);
    var p :| p in pending;
    n := |sets[p]|;
    pending := pending - {p};
    while pending != {}
      invariant pending <= sets.Keys
      invariant exists q :: q in sets && |sets[q]| == n
      invariant forall q :: q in sets && q !in pending ==> |sets[q]| <= n
    {
      some := Pick(pending);
      var q :| q in pending;
      if n < |sets[q]| {
        n := |sets[q]|;
      }
      pending := pending - {q};
    }
    assert IsLargest(n, sets);
  }

  lemma PackagesNonEmpty(files: CoreFiles, ids: seq<nat>)
    requires ids != []
    ensures PackagesOf(files, ids) != map[]
  {
    assert files.PackageOf(ids[0]) in PackagesOf(files, ids);
  }

  ghost function CoresPerSocket(files: CoreFiles, ids: seq<nat>): nat
    requires ids != []
  {
    PackagesNonEmpty(files, ids);
    LargestSize(PackagesOf(files, ids))
  }

  /** Some package has that many distinct core ids, none has more, and there are no more than cpus. */
  lemma CoresPerSocketMeaning(files: CoreFiles, ids: seq<nat>)
    requires ids != []
    ensures var n := CoresPerSocket(files, ids);
      && 1 <= n <= |ids|
      && (exists p :: |CoresOn(files, ids, p)| == n)
      && (forall p :: |CoresOn(files, ids, p)| <= n)
  {
    PackagesNonEmpty(files, ids);
    var packages, n := PackagesOf(files, ids), CoresPerSocket(files, ids);
    var p :| p in packages && |packages[p]| == n;
    assert |CoresOn(files, ids, p)| == n;
    CoresOnSize(files, ids, p);
    forall q ensures |CoresOn(files, ids, q)| <= n {
      if q in packages {
        assert |packages[q]| <= n;
      } else {
        NoCoresElsewhere(files, ids, q);
      }
    }
    var first := files.PackageOf(ids[0]);
    assert files.CoreOf(ids[0]) in CoresOn(files, ids, first);
    SubsetSize({files.CoreOf(ids[0])}, CoresOn(files, ids, first));
  }

  lemma {:induction false} CoresOnSize(files: CoreFiles, ids: seq<nat>, p: int)
    ensures |CoresOn(files, ids, p)| <= |ids|
  {
    if ids == [] {
      assert CoresOn(files, ids, p) == {};
    } else {
      var front, last := ids[..|ids| - 1], ids[|ids| - 1];
      CoresOnSize(files, front, p);
      assert ids == front + [last];
      CoresOnNext(files, front, last, p);
    }
  }

  // ----- nested virtualization

  predicate SaysYes(text: string) {
    Lower(text) in {"y", "1", "true"}
  }

  /** files: the texts of the KVM parameter files that could be read. */
  method DetectNested(files: seq<string>) returns (nested: bool)
    ensures nested == exists i :: 0 <= i < |files| && SaysYes(files[i])
  {
    for i := 0 to |files|
      invariant forall j :: 0 <= j < i ==> !SaysYes(files[j])
    {
      if SaysYes(files[i]) {
        return true;
      }
    }
    return false;
  }

  /** The kernel writes Y; 1 and true count as well, whatever the capitals, and nothing else does. */
  lemma YesTexts(text: string)
    ensures SaysYes("Y") && SaysYes("y") && SaysYes("1") && SaysYes("true") && SaysYes("TRUE")
    ensures !SaysYes("N") && !SaysYes("0") && !SaysYes("")
    ensures SaysYes(text) ==> |text| == 1 || |text| == 4
  {
    assert Lower("Y") == "y" && Lower("y") == "y" && Lower("1") == "1";
    assert Lower("true") == "true" && Lower("TRUE") == "true";
    assert Lower("N") == "n" && Lower("0") == "0";
  }

  /** Without readable files every cpu counts as a core of its own on one package. */
  lemma NoCoreFiles(ids: seq<nat>)
    requires ids != []
    ensures CoresPerSocket(CoreFiles(map[], map[]), ids) == |set id | id in ids :: id as int|
  {
    var files := CoreFiles(map[], map[]);
    var all := set id | id in ids :: id as int;
    CoresPerSocketMeaning(files, ids);
    assert CoresOn(files, ids, 0) == all;
    forall p | p != 0 ensures CoresOn(files, ids, p) == {} {}
  }

  /** A file counts when int() reads it. */
  lemma ReadIntMeaning(files: map<nat, string>, id: nat, default: int)
    ensures id !in files || IntValue(files[id]).None? ==> ReadInt(files, id, default) == default
    ensures id in files && IntValue(files[id]).Some? ==> ReadInt(files, id, default) == IntValue(files[id]).value
  {
  }

  /** A core is on a package when some cpu's two files say so; the defaults are the cpu itself and package 0. */
  lemma CoresOnMeaning(files: CoreFiles, ids: seq<nat>, p: int, core: int)
    ensures core in CoresOn(files, ids, p) <==>
      exists id :: id in ids && ReadInt(files.packageIds, id, 0) == p && ReadInt(files.coreIds, id, id) == core
  {
    forall id | id in ids && ReadInt(files.packageIds, id, 0) == p && ReadInt(files.coreIds, id, id) == core
      ensures core in CoresOn(files, ids, p)
    {
      assert files.PackageOf(id) == p && files.CoreOf(id) == core;
    }
    if core in CoresOn(files, ids, p) {
      var id :| id in ids && files.PackageOf(id) == p && files.CoreOf(id) == core;
      assert ReadInt(files.packageIds, id, 0) == p && ReadInt(files.coreIds, id, id) == core;
    }
  }
}
