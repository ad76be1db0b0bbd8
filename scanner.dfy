/**
 * The scanner: it lists the mod folders of the target directory in case-insensitive
 * order, stops when the cancel predicate fires, and for each mod records whether it
 * has an `assets` directory and which `assets/<id>/lang` directories it holds.
 */
module Scanning {
  import opened Wrappers
  import opened Paths
  import opened FileTree
  import opened Models

  // ---------------------------------------------------------------------------
  // OrderBy(p => p, StringComparer.OrdinalIgnoreCase)

  /** The key StringComparer.OrdinalIgnoreCase compares: the upper-cased full path. */
  function SortKey(p: Path): string
  {
    Upper(Render(p))
  }

  predicate KeyLe(p: Path, q: Path)
  {
    NameLe(SortKey(p), SortKey(q))
  }

  /** `le` is total and transitive, as the order a comparer induces is. */
  ghost predicate TotalPreorder(le: (Path, Path) -> bool)
  {
    && (forall a, b :: le(a, b) || le(b, a))
    && (forall a, b, c :: le(a, b) && le(b, c) ==> le(a, c))
  }

  lemma KeyLeTotalPreorder()
    ensures TotalPreorder(KeyLe)
  {
    forall a, b ensures KeyLe(a, b) || KeyLe(b, a) {
      NameLeTotal(SortKey(a), SortKey(b));
    }
    forall a, b, c | KeyLe(a, b) && KeyLe(b, c) ensures KeyLe(a, c) {
      NameLeTransitive(SortKey(a), SortKey(b), SortKey(c));
    }
  }

  predicate SortedBy(s: seq<Path>, le: (Path, Path) -> bool)
  {
    forall i, j :: 0 <= i < j < |s| ==> le(s[i], s[j])
  }

  /** Puts `x` in front of the first element that is not below it. */
  function InsertBy(x: Path, s: seq<Path>, le: (Path, Path) -> bool): (r: seq<Path>)
    ensures multiset(r) == multiset(s) + multiset{x}
    ensures forall p :: p in r <==> p == x || p in s
    ensures |r| == |s| + 1
  {
    if s == [] then [x]
    else if le(x, s[0]) then [x] + s
    else
      assert s == [s[0]] + s[1..];
      [s[0]] + InsertBy(x, s[1..], le)
  }

  lemma {:induction false} InsertSorted(x: Path, s: seq<Path>, le: (Path, Path) -> bool)
    requires TotalPreorder(le) && SortedBy(s, le)
    ensures SortedBy(InsertBy(x, s, le), le)
    decreases |s|
  {
    var r := InsertBy(x, s, le);
    if s != [] && !le(x, s[0]) {
      var rest := s[1..];
      var tail := InsertBy(x, rest, le);
      InsertSorted(x, rest, le);
      assert r == [s[0]] + tail;
      forall k | 0 <= k < |tail| ensures le(s[0], tail[k]) {
        assert tail[k] in tail;
        if tail[k] != x {
          var j :| 0 <= j < |rest| && rest[j] == tail[k];
          assert s[j + 1] == tail[k];
        }
      }
      forall i, j | 0 <= i < j < |r| ensures le(r[i], r[j]) {
        assert r[j] == tail[j - 1];
        if i > 0 {
          assert r[i] == tail[i - 1];
        }
      }
    }
  }

  /**
   * The stable sort LINQ's OrderBy performs with comparer `le`: an element never
   * overtakes an earlier one that compares equal to it.
   */
  function OrderBy(s: seq<Path>, le: (Path, Path) -> bool): (r: seq<Path>)
    ensures multiset(r) == multiset(s)
  {
    if s == [] then []
    else
      assert s == [s[0]] + s[1..];
      InsertBy(s[0], OrderBy(s[1..], le), le)
  }

  /** The result is sorted by the comparer and holds exactly the input's elements. */
  lemma {:induction false} OrderBySorted(s: seq<Path>, le: (Path, Path) -> bool)
    requires TotalPreorder(le)
    ensures SortedBy(OrderBy(s, le), le)
    ensures forall p :: p in OrderBy(s, le) <==> p in s
    decreases |s|
  {
    var r := OrderBy(s, le);
    if s != [] {
      OrderBySorted(s[1..], le);
      InsertSorted(s[0], OrderBy(s[1..], le), le);
    }
    forall p ensures p in r <==> p in s {
      assert p in r <==> p in multiset(r);
      assert p in s <==> p in multiset(s);
    }
  }

  // ---------------------------------------------------------------------------
  // Listing the mod folders

  /** The elements of `s` that are directories, in order. */
  function DirsOnly(t: Tree, s: seq<Path>): (r: seq<Path>)
    ensures forall p :: p in r <==> p in s && IsDir(t, p)
  {
    if s == [] then []
    else (if IsDir(t, s[0]) then [s[0]] else []) + DirsOnly(t, s[1..])
  }

  /**
   * Directory.EnumerateDirectories(target, "*", TopDirectoryOnly), taken as the
   * directories of the top-level listing in its order, ordered with
   * StringComparer.OrdinalIgnoreCase.
   */
  function ModDirs(snap: Snapshot, target: Path): seq<Path>
  {
    OrderBy(DirsOnly(snap.tree, snap.entries(target)), KeyLe)
  }

  /** The mod folders are exactly the child directories of the target, in case-insensitive order. */
  lemma ModDirsSpec(snap: Snapshot, target: Path)
    requires Consistent(snap)
    ensures SortedBy(ModDirs(snap, target), KeyLe)
    ensures forall p :: (p in ModDirs(snap, target)
      <==> IsDir(snap.tree, target) && IsDir(snap.tree, p) && |p| == |target| + 1 && target <= p)
    ensures multiset(ModDirs(snap, target)) == multiset(DirsOnly(snap.tree, snap.entries(target)))
  {
    assert ListsChildren(snap.tree, target, snap.entries(target));
    KeyLeTotalPreorder();
    OrderBySorted(DirsOnly(snap.tree, snap.entries(target)), KeyLe);
  }

  // ---------------------------------------------------------------------------
  // FindLangCandidates

  /** The elements of `s` whose name matches the search pattern `lang`, which ignores case. */
  function NamedLang(s: seq<Path>): (r: seq<Path>)
    ensures forall p :: p in r <==> p in s && EqIgnoreCase(FileName(p), "lang")
  {
    if s == [] then []
    else (if EqIgnoreCase(FileName(s[0]), "lang") then [s[0]] else []) + NamedLang(s[1..])
  }

  /**
   * The loop's test: the directory has a parent and a grandparent, and the
   * grandparent's full name equals `assets` ignoring case. Paths in the model carry
   * no trailing separator, so trimming one changes nothing.
   */
  predicate GrandparentIs(p: Path, assets: Path)
  {
    |p| >= 2 && EqIgnoreCase(Render(p[..|p| - 2]), Render(assets))
  }

  /** The elements of `s` that pass the grandparent test, in order. */
  function KeepGrandchildren(s: seq<Path>, assets: Path): (r: seq<Path>)
    ensures forall p :: p in r <==> p in s && GrandparentIs(p, assets)
  {
    if s == [] then []
    else (if GrandparentIs(s[0], assets) then [s[0]] else []) + KeepGrandchildren(s[1..], assets)
  }

  /**
   * FindLangCandidates: the directories Directory.EnumerateDirectories(assets, "lang",
   * AllDirectories) returns, in its order, that pass the grandparent test.
   */
  function FindLangCandidates(snap: Snapshot, assets: Path): seq<Path>
  {
    KeepGrandchildren(NamedLang(snap.walk(assets)), assets)
  }

  lemma RenderHoldsLast(p: Path)
    requires p != []
    ensures |Render(p)| >= |p[|p| - 1]|
  {
  }

  /**
   * A directory is a candidate exactly when it has the shape `assets/<id>/lang`:
   * `assets/lang` and `assets/a/b/lang` are not.
   */
  lemma {:induction false} CandidateShape(snap: Snapshot, mod: Path, p: Path)
    requires WellFormed(snap.tree) && Consistent(snap)
    ensures var assets := mod + ["assets"];
      p in FindLangCandidates(snap, assets)
      <==> IsDir(snap.tree, p) && assets <= p && |p| == |assets| + 2 && EqIgnoreCase(FileName(p), "lang")
  {
    var t := snap.tree;
    var assets := mod + ["assets"];
    assert ListsDescendantDirs(t, assets, snap.walk(assets));
    if p in FindLangCandidates(snap, assets) {
      assert IsDir(t, p) && assets < p && GrandparentIs(p, assets);
      var g := p[..|p| - 2];
      EqIgnoreCaseLength(Render(g), Render(assets));
      assert g <= p && assets <= p;
      if |g| > |assets| {
        assert assets < g;
        RenderGrows(assets, g);
      } else if |g| < |assets| {
        assert g < assets;
        if g == [] {
          RenderHoldsLast(assets);
        } else {
          RenderGrows(g, assets);
        }
      }
    }
    if IsDir(t, p) && assets <= p && |p| == |assets| + 2 && EqIgnoreCase(FileName(p), "lang") {
      AncestorIsDir(t, p, assets);
      assert p[..|p| - 2] == assets;
      assert p in snap.walk(assets);
    }
  }

  /** The three shapes named in the comment of the loop. */
  lemma CandidateShapeExamples(snap: Snapshot, mod: Path, id: Name, a: Name, b: Name)
    requires WellFormed(snap.tree) && Consistent(snap)
    ensures var assets := mod + ["assets"];
      && (assets + [id, "lang"] in FindLangCandidates(snap, assets) <==> IsDir(snap.tree, assets + [id, "lang"]))
      && assets + ["lang"] !in FindLangCandidates(snap, assets)
      && assets + [a, b, "lang"] !in FindLangCandidates(snap, assets)
  {
    var assets := mod + ["assets"];
    CandidateShape(snap, mod, assets + [id, "lang"]);
    CandidateShape(snap, mod, assets + ["lang"]);
    CandidateShape(snap, mod, assets + [a, b, "lang"]);
    assert FileName(assets + [id, "lang"]) == "lang";
  }

  // ---------------------------------------------------------------------------
  // Scan

  /** What the loop records for one mod folder. */
  function ScanMod(snap: Snapshot, mod: Path): ModScanResult
  {
    var assets := mod + ["assets"];
    var assetsExists := IsDir(snap.tree, assets);
    ModScanResult(
      Directory, FileName(mod), mod, assetsExists,
      if assetsExists then FindLangCandidates(snap, assets) else [],
      0, 0, "")
  }

  /** The fields of one mod's result, stated on their own. */
  lemma ScanModFacts(snap: Snapshot, mod: Path, p: Path)
    requires WellFormed(snap.tree) && Consistent(snap)
    ensures var r := ScanMod(snap, mod);
      && r.sourceType == Directory
      && r.modName == FileName(mod) && r.modPath == mod
      && (r.assetsExists <==> IsDir(snap.tree, mod + ["assets"]))
      && (!r.assetsExists ==> r.langCandidates == [])
      && (p in r.langCandidates
          <==> IsDir(snap.tree, p) && mod + ["assets"] <= p && |p| == |mod| + 3 && EqIgnoreCase(FileName(p), "lang"))
  {
    CandidateShape(snap, mod, p);
  }

  /** The target cannot be scanned: null, blank, or not an existing directory. */
  predicate Unscannable(t: Tree, targetDir: Option<Path>)
  {
    targetDir.None? || IsBlank(Render(targetDir.value)) || !IsDir(t, targetDir.value)
  }

  /**
   * ModScanner.Scan over the snapshot `snap`. When `isCancelled` fires for the k-th
   * mod folder, the result is exactly the results for the folders before it.
   */
  method Scan(snap: Snapshot, targetDir: Option<Path>, isCancelled: Path -> bool) returns (results: seq<ModScanResult>)
    ensures Unscannable(snap.tree, targetDir) ==> results == []
    ensures !Unscannable(snap.tree, targetDir) ==>
      var dirs := ModDirs(snap, targetDir.value);
      && |results| <= |dirs|
      && (forall i :: 0 <= i < |results| ==> !isCancelled(dirs[i]))
      && (forall i {:trigger results[i]} :: 0 <= i < |results| ==> results[i] == ScanMod(snap, dirs[i]))
      && (|results| < |dirs| ==> isCancelled(dirs[|results|]))
  {
    if targetDir.None? || IsBlank(Render(targetDir.value)) {
      return [];
    }
    var target := targetDir.value;
    if !IsDir(snap.tree, target) {
      return [];
    }
    var modDirs := ModDirs(snap, target);
    results := ScanFolders(snap, modDirs, isCancelled);
  }

  /** The loop of Scan over the ordered mod folders `dirs`. */
  method ScanFolders(snap: Snapshot, dirs: seq<Path>, isCancelled: Path -> bool) returns (results: seq<ModScanResult>)
    ensures |results| <= |dirs|
    ensures forall i :: 0 <= i < |results| ==> !isCancelled(dirs[i])
    ensures forall i {:trigger results[i]} :: 0 <= i < |results| ==> results[i] == ScanMod(snap, dirs[i])
    ensures |results| < |dirs| ==> isCancelled(dirs[|results|])
  {
    results := [];
    var i := 0;
    while i < |dirs|
      invariant 0 <= i <= |dirs| && |results| == i
      invariant forall k :: 0 <= k < i ==> !isCancelled(dirs[k])
      invariant forall k {:trigger results[k]} :: 0 <= k < i ==> results[k] == ScanMod(snap, dirs[k])
    {
      var modPath := dirs[i];
      if isCancelled(modPath) {
        break;
      }
      var result := ScanMod(snap, modPath);
      ghost var before := results;
      results := results + [result];
      assert forall k :: 0 <= k < i ==> results[k] == before[k];
      i := i + 1;
    }
  }
}
