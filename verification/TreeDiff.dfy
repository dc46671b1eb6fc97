/** The file differ of a push event: two Merkle trees compared with hash shortcuts, against
    the difference of the two flattened path-to-entry maps. */
module TreeDiff {
  import opened Prelude

  type Name = string

  /** A file path, one component per directory level. */
  type Path = seq<Name>

  const DIR_MODE: nat := 0x4000

  datatype Entry = Entry(mode: nat, hash: Hash)

  type TreeObject = seq<(Name, Entry)>

  /** The stored tree objects. A tree is loaded by its hash, and a hash names one tree. */
  type Trees = map<Hash, TreeObject>

  /** The entries of a tree by name. A repeated name keeps its last entry. */
  function EntryMap(t: TreeObject): map<Name, Entry> {
    if t == [] then map[]
    else EntryMap(t[..|t| - 1])[t[|t| - 1].0 := t[|t| - 1].1]
  }

  function Entries(st: Trees, t: Option<Hash>): map<Name, Entry> {
    if t.Some? && t.value in st then EntryMap(st[t.value]) else map[]
  }

  /** The flattened tree: the file entry at a path, if there is one. */
  function At(st: Trees, t: Option<Hash>, p: Path): Option<Entry>
    decreases |p|
  {
    if p == [] || p[0] !in Entries(st, t) then None
    else
      var e := Entries(st, t)[p[0]];
      if e.mode != DIR_MODE then (if |p| == 1 then Some(e) else None)
      else if |p| == 1 then None
      else At(st, Some(e.hash), p[1..])
  }

  /** An entry of mode 040000 is a directory, which is listed by what is in it and not itself; every
      other entry is a file. */
  lemma DirectoriesDescend(st: Trees, t: Option<Hash>, name: Name, rest: Path)
    requires name in Entries(st, t)
    ensures var e := Entries(st, t)[name];
            if e.mode == 16384 then At(st, t, [name]) == None && (rest != [] ==> At(st, t, [name] + rest) == At(st, Some(e.hash), rest))
            else At(st, t, [name]) == Some(e) && (rest != [] ==> At(st, t, [name] + rest) == None)
  {
    hide Entries;
    assert ([name] + rest)[1..] == rest;
  }

  datatype Change = Added | Changed | Deleted | Same

  /** How a path differs between the two flattened trees. */
  function Class(st: Trees, o: Option<Hash>, n: Option<Hash>, p: Path): Change {
    var was, is_ := At(st, o, p), At(st, n, p);
    if was == is_ then Same
    else if was.None? then Added
    else if is_.None? then Deleted
    else Changed
  }

  datatype Lists = Lists(added: seq<Path>, changed: seq<Path>, deleted: seq<Path>) {
    function Of(k: Change): seq<Path> {
      match k
      case Added => added
      case Changed => changed
      case Deleted => deleted
      case Same => []
    }
  }

  class FileChanges {
    var added: seq<Path>
    var changed: seq<Path>
    var deleted: seq<Path>

    constructor ()
      ensures View() == Lists([], [], [])
    {
      added, changed, deleted := [], [], [];
    }

    ghost function View(): Lists
      reads this
    {
      Lists(added, changed, deleted)
    }
  }

  ghost predicate Under(p: Path, prefix: Path) {
    |p| > |prefix| && p[..|prefix|] == prefix
  }

  /** `part` lists, once each, the paths under `prefix` that changed in way `k` and whose next
      component is one of `names`. */
  ghost predicate Reports(part: seq<Path>, prefix: Path, st: Trees, o: Option<Hash>, n: Option<Hash>, k: Change, names: set<Name>) {
    && NoDup(part)
    && forall p :: p in part <==> Under(p, prefix) && p[|prefix|] in names && Class(st, o, n, p[|prefix|..]) == k
  }

  ghost predicate GrewBy(before: seq<Path>, after: seq<Path>, prefix: Path, st: Trees, o: Option<Hash>, n: Option<Hash>, k: Change, names: set<Name>) {
    |before| <= |after| && after[..|before|] == before && Reports(after[|before|..], prefix, st, o, n, k, names)
  }

  /** The lists grew by exactly the changes under `prefix` whose next component is in `names`. */
  ghost predicate Grew(l0: Lists, l1: Lists, prefix: Path, st: Trees, o: Option<Hash>, n: Option<Hash>, names: set<Name>) {
    && GrewBy(l0.added, l1.added, prefix, st, o, n, Added, names)
    && GrewBy(l0.changed, l1.changed, prefix, st, o, n, Changed, names)
    && GrewBy(l0.deleted, l1.deleted, prefix, st, o, n, Deleted, names)
  }

  /** The subtree an entry names, when the entry is a directory. */
  function Child(st: Trees, t: Option<Hash>, x: Name): Option<Hash> {
    if x in Entries(st, t) && Entries(st, t)[x].mode == DIR_MODE then Some(Entries(st, t)[x].hash) else None
  }

  lemma ClassBelow(st: Trees, o: Option<Hash>, n: Option<Hash>, p: Path)
    requires |p| > 1
    ensures Class(st, o, n, p) == Class(st, Child(st, o, p[0]), Child(st, n, p[0]), p[1..])
  {
  }

  lemma GrewNothing(l: Lists, prefix: Path, st: Trees, o: Option<Hash>, n: Option<Hash>, names: set<Name>)
    requires forall p: Path :: p != [] && p[0] in names ==> Class(st, o, n, p) == Same
    ensures Grew(l, l, prefix, st, o, n, names)
  {
    forall k, before | before == l.Of(k) && k != Same ensures GrewBy(before, before, prefix, st, o, n, k, names) {
      assert before[|before|..] == [];
      forall p | Under(p, prefix) && p[|prefix|] in names ensures Class(st, o, n, p[|prefix|..]) != k {
        assert p[|prefix|..][0] == p[|prefix|];
      }
    }
  }

  lemma GrewByTwice(a: seq<Path>, b: seq<Path>, c: seq<Path>, prefix: Path, st: Trees, o: Option<Hash>, n: Option<Hash>,
                    k: Change, done: set<Name>, x: Name)
    requires GrewBy(a, b, prefix, st, o, n, k, done) && GrewBy(b, c, prefix, st, o, n, k, {x}) && x !in done
    ensures GrewBy(a, c, prefix, st, o, n, k, done + {x})
  {
    var p1, p2 := b[|a|..], c[|b|..];
    assert c[..|a|] == c[..|b|][..|a|];
    assert c[|a|..] == p1 + p2 by { assert c == c[..|b|] + p2; }
    NoDupConcat(p1, p2);
  }

  lemma GrewTwice(a: Lists, b: Lists, c: Lists, prefix: Path, st: Trees, o: Option<Hash>, n: Option<Hash>, done: set<Name>, x: Name)
    requires Grew(a, b, prefix, st, o, n, done) && Grew(b, c, prefix, st, o, n, {x}) && x !in done
    ensures Grew(a, c, prefix, st, o, n, done + {x})
  {
    GrewByTwice(a.added, b.added, c.added, prefix, st, o, n, Added, done, x);
    GrewByTwice(a.changed, b.changed, c.changed, prefix, st, o, n, Changed, done, x);
    GrewByTwice(a.deleted, b.deleted, c.deleted, prefix, st, o, n, Deleted, done, x);
  }

  /** All changes below one name: those of the subtrees, and the name itself when it is a file. */
  lemma GrewByName(before: seq<Path>, after: seq<Path>, sub: seq<Path>, prefix: Path, st: Trees, o: Option<Hash>, n: Option<Hash>,
                   k: Change, x: Name)
    requires Reports(sub, prefix + [x], st, Child(st, o, x), Child(st, n, x), k,
                     Entries(st, Child(st, o, x)).Keys + Entries(st, Child(st, n, x)).Keys)
    requires k != Same
    requires |before| <= |after| && after[..|before|] == before
    requires var part := after[|before|..];
             var top := prefix + [x];
             if Class(st, o, n, [x]) == k then part == sub + [top] || part == [top] + sub else part == sub
    ensures GrewBy(before, after, prefix, st, o, n, k, {x})
  {
    var part := after[|before|..];
    var top := prefix + [x];
    assert top !in sub;
    if Class(st, o, n, [x]) == k {
      if part == sub + [top] {
        NoDupConcat(sub, [top]);
      } else {
        NoDupConcat([top], sub);
      }
    }
    var so, sn := Child(st, o, x), Child(st, n, x);
    forall p ensures p in part <==> Under(p, prefix) && p[|prefix|] == x && Class(st, o, n, p[|prefix|..]) == k {
      if Under(p, prefix) && p[|prefix|] == x {
        var q := p[|prefix|..];
        if |q| == 1 {
          assert q == [x] && p == top;
        } else {
          ClassBelow(st, o, n, q);
          assert p[..|top|] == top && q[1..] == p[|top|..];
          assert Class(st, so, sn, q[1..]) == k ==>
            q[1] in Entries(st, so) || q[1] in Entries(st, sn);
        }
      } else if p == top {
        assert p[..|prefix|] == prefix;
      }
    }
  }

  /** Following directory entries goes down: every stored tree has a height. */
  ghost predicate WellFounded(st: Trees, height: map<Hash, nat>) {
    forall h, x :: h in st && x in EntryMap(st[h]) ==>
      var e := EntryMap(st[h])[x];
      e.mode == DIR_MODE && e.hash in st ==> h in height && e.hash in height && height[e.hash] < height[h]
  }

  ghost function Level(st: Trees, height: map<Hash, nat>, t: Option<Hash>): nat {
    if t.Some? && t.value in st && t.value in height then height[t.value] + 1 else if t.Some? then 1 else 0
  }

  method EntriesByName(t: TreeObject) returns (m: map<Name, Entry>)
    ensures m == EntryMap(t)
  {
    m := map[];
    for i := 0 to |t|
      invariant m == EntryMap(t[..i])
    {
      assert t[..i + 1][..i] == t[..i];
      m := m[t[i].0 := t[i].1];
    }
    assert t[..|t|] == t;
  }

  lemma SameTree(l: Lists, prefix: Path, st: Trees, t: Option<Hash>)
    ensures Grew(l, l, prefix, st, t, t, Entries(st, t).Keys + Entries(st, t).Keys)
  {
    GrewNothing(l, prefix, st, t, t, Entries(st, t).Keys + Entries(st, t).Keys);
  }

  lemma NoNames(l: Lists, prefix: Path, st: Trees, o: Option<Hash>, n: Option<Hash>)
    ensures Grew(l, l, prefix, st, o, n, {})
  {
    GrewNothing(l, prefix, st, o, n, {});
  }

  /** The comparison of one subtree pair. On success the lists grew by exactly the paths under
      `prefix` at which the two flattened trees differ. */
  method DiffTrees(st: Trees, ghost height: map<Hash, nat>, oldTree: Option<Hash>, newTree: Option<Hash>,
                   prefix: Path, files: FileChanges) returns (ok: bool)
    requires WellFounded(st, height)
    requires (oldTree.Some? ==> oldTree.value in st) && (newTree.Some? ==> newTree.value in st)
    modifies files
    ensures ok ==> Grew(old(files.View()), files.View(), prefix, st, oldTree, newTree,
                        Entries(st, oldTree).Keys + Entries(st, newTree).Keys)
    decreases Level(st, height, oldTree) + Level(st, height, newTree), 1
  {
    hide Grew, WellFounded, EntryMap, Class;
    if * {
      return false; // the request was cancelled
    }
    ghost var start := files.View();
    if oldTree.Some? && newTree.Some? && oldTree.value == newTree.value {
      SameTree(start, prefix, st, oldTree);
      return true;
    }
    var oldEntries, newEntries := map[], map[];
    if oldTree.Some? {
      oldEntries := EntriesByName(st[oldTree.value]);
    }
    if newTree.Some? {
      newEntries := EntriesByName(st[newTree.value]);
    }
    var todo := oldEntries.Keys;
    ghost var done: set<Name> := {};
    NoNames(start, prefix, st, oldTree, newTree);
    while todo != {}
      invariant todo == oldEntries.Keys - done && done <= oldEntries.Keys
      invariant Grew(start, files.View(), prefix, st, oldTree, newTree, done)
      decreases todo
    {
      var x :| x in todo;
      ghost var before := files.View();
      ok := DiffOldEntry(st, height, oldTree, newTree, x, prefix, files);
      if !ok {
        return;
      }
      GrewTwice(start, before, files.View(), prefix, st, oldTree, newTree, done, x);
      todo, done := todo - {x}, done + {x};
    }
    todo := newEntries.Keys - oldEntries.Keys;
    while todo != {}
      invariant todo == newEntries.Keys - done && oldEntries.Keys <= done <= oldEntries.Keys + newEntries.Keys
      invariant Grew(start, files.View(), prefix, st, oldTree, newTree, done)
      decreases todo
    {
      var x :| x in todo;
      ghost var before := files.View();
      ok := DiffNewEntry(st, height, oldTree, newTree, x, prefix, files);
      if !ok {
        return;
      }
      GrewTwice(start, before, files.View(), prefix, st, oldTree, newTree, done, x);
      todo, done := todo - {x}, done + {x};
    }
    assert done == oldEntries.Keys + newEntries.Keys;
    ok := true;
  }

  lemma GrewName(l0: Lists, mid0: Lists, mid1: Lists, l1: Lists, prefix: Path, st: Trees, o: Option<Hash>, n: Option<Hash>, x: Name)
    requires Grew(mid0, mid1, prefix + [x], st, Child(st, o, x), Child(st, n, x),
                  Entries(st, Child(st, o, x)).Keys + Entries(st, Child(st, n, x)).Keys)
    requires TopAdded(l0, mid0, mid1, l1, prefix, st, o, n, x, Added)
    requires TopAdded(l0, mid0, mid1, l1, prefix, st, o, n, x, Changed)
    requires TopAdded(l0, mid0, mid1, l1, prefix, st, o, n, x, Deleted)
    ensures Grew(l0, l1, prefix, st, o, n, {x})
  {
    TopGrows(l0, mid0, mid1, l1, prefix, st, o, n, x, Added);
    TopGrows(l0, mid0, mid1, l1, prefix, st, o, n, x, Changed);
    TopGrows(l0, mid0, mid1, l1, prefix, st, o, n, x, Deleted);
  }

  lemma TopGrows(l0: Lists, mid0: Lists, mid1: Lists, l1: Lists, prefix: Path, st: Trees, o: Option<Hash>, n: Option<Hash>, x: Name, k: Change)
    requires GrewBy(mid0.Of(k), mid1.Of(k), prefix + [x], st, Child(st, o, x), Child(st, n, x), k,
                    Entries(st, Child(st, o, x)).Keys + Entries(st, Child(st, n, x)).Keys)
    requires k != Same && TopAdded(l0, mid0, mid1, l1, prefix, st, o, n, x, k)
    ensures GrewBy(l0.Of(k), l1.Of(k), prefix, st, o, n, k, {x})
  {
    hide Reports, Class, Child, Entries;
    var a, b, c, d := l0.Of(k), mid0.Of(k), mid1.Of(k), l1.Of(k);
    var sub, top := c[|b|..], [prefix + [x]];
    assert c == b + sub;
    if Class(st, o, n, [x]) == k {
      if b == a {
        assert d == a + (sub + top);
      } else {
        assert d == a + (top + sub);
      }
    }
    GrewByName(a, d, sub, prefix, st, o, n, k, x);
  }

  /** Around the subtree comparison the name itself goes into the list of its own change, before or after. */
  ghost predicate TopAdded(l0: Lists, mid0: Lists, mid1: Lists, l1: Lists, prefix: Path,
                           st: Trees, o: Option<Hash>, n: Option<Hash>, x: Name, k: Change)
  {
    var top := [prefix + [x]];
    if Class(st, o, n, [x]) == k then
      (mid0.Of(k) == l0.Of(k) && l1.Of(k) == mid1.Of(k) + top) || (mid0.Of(k) == l0.Of(k) + top && l1.Of(k) == mid1.Of(k))
    else mid0.Of(k) == l0.Of(k) && l1.Of(k) == mid1.Of(k)
  }

  /** One name the old tree has: unchanged, changed, deleted, or replaced across file and directory. */
  method DiffOldEntry(st: Trees, ghost height: map<Hash, nat>, oldTree: Option<Hash>, newTree: Option<Hash>,
                      x: Name, prefix: Path, files: FileChanges) returns (ok: bool)
    requires WellFounded(st, height)
    requires oldTree.Some? && oldTree.value in st && (newTree.Some? ==> newTree.value in st)
    requires x in Entries(st, oldTree)
    modifies files
    ensures ok ==> Grew(old(files.View()), files.View(), prefix, st, oldTree, newTree, {x})
    decreases Level(st, height, oldTree) + Level(st, height, newTree), 0
  {
    ghost var l0 := files.View();
    var oldEntry := Entries(st, oldTree)[x];
    var hasNew := x in Entries(st, newTree);
    var newEntry := if hasNew then Entries(st, newTree)[x] else oldEntry;
    if hasNew && oldEntry == newEntry {
      SameBelow(st, oldTree, newTree, x);
      GrewNothing(l0, prefix, st, oldTree, newTree, {x});
      return true;
    }
    var path := prefix + [x];
    if oldEntry.mode == DIR_MODE || (hasNew && newEntry.mode == DIR_MODE) {
      ghost var mid0 := l0;
      ghost var mid1 := l0;
      if oldEntry.mode == DIR_MODE {
        var newSub: Option<Hash> := None;
        if hasNew && newEntry.mode == DIR_MODE {
          if newEntry.hash !in st {
            return false;
          }
          newSub := Some(newEntry.hash);
        }
        if oldEntry.hash !in st {
          return false;
        }
        ok := DiffTrees(st, height, Some(oldEntry.hash), newSub, path, files);
        if !ok {
          return;
        }
        mid1 := files.View();
      } else {
        files.deleted := files.deleted + [path];
        mid0 := files.View();
      }
      if hasNew && newEntry.mode == DIR_MODE && oldEntry.mode != DIR_MODE {
        if newEntry.hash !in st {
          return false;
        }
        ok := DiffTrees(st, height, None, Some(newEntry.hash), path, files);
        if !ok {
          return;
        }
        mid1 := files.View();
      } else if hasNew && newEntry.mode != DIR_MODE {
        files.added := files.added + [path];
      }
      GrewName(l0, mid0, mid1, files.View(), prefix, st, oldTree, newTree, x);
      return true;
    }
    if !hasNew {
      files.deleted := files.deleted + [path];
    } else {
      files.changed := files.changed + [path];
    }
    SameTree(l0, path, st, None);
    GrewName(l0, l0, l0, files.View(), prefix, st, oldTree, newTree, x);
    ok := true;
  }

  lemma SameBelow(st: Trees, o: Option<Hash>, n: Option<Hash>, x: Name)
    requires x in Entries(st, o) && x in Entries(st, n) && Entries(st, o)[x] == Entries(st, n)[x]
    ensures forall p: Path :: p != [] && p[0] in {x} ==> Class(st, o, n, p) == Same
  {
  }

  /** One name only the new tree has. */
  method DiffNewEntry(st: Trees, ghost height: map<Hash, nat>, oldTree: Option<Hash>, newTree: Option<Hash>,
                      x: Name, prefix: Path, files: FileChanges) returns (ok: bool)
    requires WellFounded(st, height)
    requires newTree.Some? && newTree.value in st
    requires x in Entries(st, newTree) && x !in Entries(st, oldTree)
    modifies files
    ensures ok ==> Grew(old(files.View()), files.View(), prefix, st, oldTree, newTree, {x})
    decreases Level(st, height, oldTree) + Level(st, height, newTree), 0
  {
    ghost var l0 := files.View();
    var newEntry := Entries(st, newTree)[x];
    var path := prefix + [x];
    if newEntry.mode == DIR_MODE {
      if newEntry.hash !in st {
        return false;
      }
      ok := DiffTrees(st, height, None, Some(newEntry.hash), path, files);
      if !ok {
        return;
      }
      GrewName(l0, l0, files.View(), files.View(), prefix, st, oldTree, newTree, x);
    } else {
      files.added := files.added + [path];
      SameTree(l0, path, st, None);
      GrewName(l0, l0, l0, files.View(), prefix, st, oldTree, newTree, x);
    }
    ok := true;
  }

  /** The net file changes between two trees: each list holds, once each, exactly the paths
      whose flattened entries differ in that way. */
  method Diff(st: Trees, ghost height: map<Hash, nat>, oldTree: Option<Hash>, newTree: Option<Hash>)
    returns (ok: bool, added: seq<Path>, changed: seq<Path>, deleted: seq<Path>)
    requires WellFounded(st, height)
    requires (oldTree.Some? ==> oldTree.value in st) && (newTree.Some? ==> newTree.value in st)
    ensures ok ==> NoDup(added) && NoDup(changed) && NoDup(deleted)
    ensures ok ==> forall p :: p in added <==> At(st, oldTree, p).None? && At(st, newTree, p).Some?
    ensures ok ==> forall p :: p in deleted <==> At(st, oldTree, p).Some? && At(st, newTree, p).None?
    ensures ok ==> forall p :: p in changed <==>
              At(st, oldTree, p).Some? && At(st, newTree, p).Some? && At(st, oldTree, p) != At(st, newTree, p)
  {
    var files := new FileChanges();
    ok := DiffTrees(st, height, oldTree, newTree, [], files);
    added, changed, deleted := files.added, files.changed, files.deleted;
    if ok {
      ReportsEverything(added, st, oldTree, newTree, Added);
      ReportsEverything(changed, st, oldTree, newTree, Changed);
      ReportsEverything(deleted, st, oldTree, newTree, Deleted);
    }
  }

  lemma ReportsEverything(part: seq<Path>, st: Trees, o: Option<Hash>, n: Option<Hash>, k: Change)
    requires GrewBy([], part, [], st, o, n, k, Entries(st, o).Keys + Entries(st, n).Keys) && k != Same
    ensures NoDup(part) && forall p :: p in part <==> Class(st, o, n, p) == k
  {
    assert part[0..] == part;
    forall p ensures p in part <==> Class(st, o, n, p) == k {
      if p != [] {
        assert p[0..] == p && p[..0] == [];
        assert Under(p, []);
      }
    }
  }

  /** A path as the event spells it, components joined by slashes. */
  function Render(p: Path): string
    requires p != []
  {
    if |p| == 1 then p[0] else p[0] + "/" + Render(p[1..])
  }

  function SlashAt(s: string): nat {
    if s == "" || s[0] == '/' then 0 else 1 + SlashAt(s[1..])
  }

  function Split(s: string): Path
    decreases |s|
  {
    var i := SlashAt(s);
    if i < |s| then [s[..i]] + Split(s[i + 1..]) else [s]
  }

  predicate SlashFree(x: Name) {
    '/' !in x
  }

  lemma {:induction false} FirstSlash(x: Name, rest: string)
    requires SlashFree(x) && (rest == "" || rest[0] == '/')
    ensures SlashAt(x + rest) == |x|
  {
    if x == "" {
      assert x + rest == rest;
    } else {
      assert (x + rest)[1..] == x[1..] + rest;
      FirstSlash(x[1..], rest);
    }
  }

  /** Git names hold no slash, so a rendered path reads back as its components. */
  lemma {:induction false} SplitRender(p: Path)
    requires p != [] && forall x :: x in p ==> SlashFree(x)
    ensures Split(Render(p)) == p
  {
    if |p| == 1 {
      assert p[0] + "" == p[0];
      FirstSlash(p[0], "");
    } else {
      var s, rest := Render(p), "/" + Render(p[1..]);
      assert s == p[0] + rest;
      FirstSlash(p[0], rest);
      SplitRender(p[1..]);
      assert s[|p[0]| + 1..] == Render(p[1..]) && s[..|p[0]|] == p[0];
    }
  }

  /** No rendered path is listed twice either. */
  lemma RenderedOnce(part: seq<Path>)
    requires NoDup(part)
    requires forall i :: 0 <= i < |part| ==> part[i] != [] && forall x :: x in part[i] ==> SlashFree(x)
    ensures forall i, j :: 0 <= i < j < |part| ==> Render(part[i]) != Render(part[j])
  {
    forall i, j | 0 <= i < j < |part| ensures Render(part[i]) != Render(part[j]) {
      SplitRender(part[i]);
      SplitRender(part[j]);
    }
  }
}
