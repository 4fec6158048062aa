/** What `process_directory` promises about the items it returns and the files it writes. */
module WalkerFacts {
  import opened Wrappers
  import opened Text
  import opened Paths
  import opened FileTree
  import opened Metadata
  import opened MetadataFacts
  import opened StableSort
  import opened Walker

  /** The returned items are sorted by order, hold exactly the collected items, and keep name order among equal orders. */
  lemma ProcessDirSortedStable(path: string, m: map<string, Node>, load: string -> YamlDoc)
    ensures SortedBy(ProcessDir(path, Dir(m), load), OrderOf)
    ensures multiset(ProcessDir(path, Dir(m), load)) == multiset(Collect(path, m, SortedNames(m.Keys), load))
    ensures forall k :: WithKey(ProcessDir(path, Dir(m), load), OrderOf, k) == WithKey(Collect(path, m, SortedNames(m.Keys), load), OrderOf, k)
  {
    forall k ensures WithKey(ProcessDir(path, Dir(m), load), OrderOf, k) == WithKey(Collect(path, m, SortedNames(m.Keys), load), OrderOf, k) {
      SortByKeyStable(Collect(path, m, SortedNames(m.Keys), load), OrderOf, k);
    }
  }

  /** With every link path non-empty, the merge loop keeps every item, in order, re-addressed. */
  lemma {:induction false} PrefixedKeepsAll(name: string, items: seq<Item>)
    requires forall i :: 0 <= i < |items| ==> items[i].linkPath != ""
    ensures |Prefixed(name, items)| == |items|
    ensures forall i :: 0 <= i < |items| ==> Prefixed(name, items)[i] == Rebased(name, items[i])
  {
    if items != [] {
      var init := items[..|items| - 1];
      PrefixedKeepsAll(name, init);
      var r := Prefixed(name, items);
      assert r == Prefixed(name, init) + [Rebased(name, items[|items| - 1])];
      forall i | 0 <= i < |items| ensures r[i] == Rebased(name, items[i]) {
        if i < |init| {
          assert r[i] == Prefixed(name, init)[i];
          assert init[i] == items[i];
        }
      }
    }
  }

  lemma CollectStep(path: string, m: map<string, Node>, names: seq<string>, load: string -> YamlDoc)
    requires forall n :: n in names ==> n in m
    requires names != []
    ensures Collect(path, m, names, load)
         == Collect(path, m, names[..|names| - 1], load) + EntryItems(path, names[|names| - 1], m[names[|names| - 1]], load)
  {
  }

  /** Every item of `Collect` was contributed by one of the visited entries. */
  lemma {:induction false} CollectFromEntry(path: string, m: map<string, Node>, names: seq<string>, load: string -> YamlDoc, it: Item)
    requires forall n :: n in names ==> n in m
    requires it in Collect(path, m, names, load)
    ensures exists i :: 0 <= i < |names| && it in EntryItems(path, names[i], m[names[i]], load)
  {
    var last := |names| - 1;
    var init := names[..last];
    CollectStep(path, m, names, load);
    if it in Collect(path, m, init, load) {
      CollectFromEntry(path, m, init, load, it);
      var i :| 0 <= i < |init| && it in EntryItems(path, init[i], m[init[i]], load);
      assert init[i] == names[i];
    } else {
      assert it in EntryItems(path, names[last], m[names[last]], load);
    }
  }

  /** Every contribution of a visited entry is in `Collect`. */
  lemma {:induction false} CollectHasEntry(path: string, m: map<string, Node>, names: seq<string>, load: string -> YamlDoc, i: nat, it: Item)
    requires forall n :: n in names ==> n in m
    requires i < |names| && it in EntryItems(path, names[i], m[names[i]], load)
    ensures it in Collect(path, m, names, load)
  {
    var last := |names| - 1;
    var init := names[..last];
    CollectStep(path, m, names, load);
    var before := Collect(path, m, init, load);
    var added := EntryItems(path, names[last], m[names[last]], load);
    assert Collect(path, m, names, load) == before + added;
    if i < last {
      assert init[i] == names[i];
      CollectHasEntry(path, m, init, load, i, it);
      assert it in before;
    } else {
      assert i == last;
    }
  }

  lemma SortedKeepsMembers(c: seq<Item>, it: Item)
    ensures it in SortByKey(c, OrderOf) <==> it in c
  {
    var r := SortByKey(c, OrderOf);
    assert (it in r) == (it in multiset(r));
    assert (it in c) == (it in multiset(c));
  }

  /** Every item of a directory's list was contributed by one of its entries. */
  lemma ItemFromEntry(path: string, m: map<string, Node>, load: string -> YamlDoc, it: Item)
    requires it in ProcessDir(path, Dir(m), load)
    ensures exists name :: name in m && it in EntryItems(path, name, m[name], load)
  {
    var names := SortedNames(m.Keys);
    SortedKeepsMembers(Collect(path, m, names, load), it);
    CollectFromEntry(path, m, names, load, it);
    var i :| 0 <= i < |names| && it in EntryItems(path, names[i], m[names[i]], load);
    assert names[i] in m;
  }

  /** Every item an entry contributes is in its directory's list. */
  lemma EntryItemInDir(path: string, m: map<string, Node>, name: string, load: string -> YamlDoc, it: Item)
    requires name in m && it in EntryItems(path, name, m[name], load)
    ensures it in ProcessDir(path, Dir(m), load)
  {
    var names := SortedNames(m.Keys);
    var i :| 0 <= i < |names| && names[i] == name;
    CollectHasEntry(path, m, names, load, i, it);
    SortedKeepsMembers(Collect(path, m, names, load), it);
  }

  /** An item is in a directory's list exactly when one of its entries contributed it. */
  lemma ItemsComeFromEntries(path: string, m: map<string, Node>, load: string -> YamlDoc, it: Item)
    ensures it in ProcessDir(path, Dir(m), load) <==> exists name :: name in m && it in EntryItems(path, name, m[name], load)
  {
    if it in ProcessDir(path, Dir(m), load) {
      ItemFromEntry(path, m, load, it);
    }
    if exists name :: name in m && it in EntryItems(path, name, m[name], load) {
      var name :| name in m && it in EntryItems(path, name, m[name], load);
      EntryItemInDir(path, m, name, load, it);
    }
  }

  /** Every link path a directory returns is non-empty, so the merge guard of a parent never drops an item. */
  lemma {:induction false} LinkPathsNonEmpty(path: string, node: Node, load: string -> YamlDoc)
    ensures forall it :: it in ProcessDir(path, node, load) ==> it.linkPath != ""
    decreases node, 1
  {
    if node.Dir? {
      var m := node.entries;
      forall it | it in ProcessDir(path, node, load) ensures it.linkPath != "" {
        ItemFromEntry(path, m, load, it);
        var name :| name in m && it in EntryItems(path, name, m[name], load);
        EntryLinkPathsNonEmpty(path, name, m[name], load);
      }
    }
  }

  lemma {:induction false} EntryLinkPathsNonEmpty(path: string, name: string, child: Node, load: string -> YamlDoc)
    ensures forall it :: it in EntryItems(path, name, child, load) ==> it.linkPath != ""
    decreases child, 2
  {
    match child
    case File(c) =>
      assert FileItem(name, c, load).Some? ==> FileItem(name, c, load).value.linkPath != "";
    case Dir(sub) =>
      match ReadChapterConfig(sub)
      case Some(cfg) =>
        assert EntryItems(path, name, child, load) == [ChapterLink(name, cfg)];
      case None =>
        var items := ProcessDir(Join(path, name), child, load);
        LinkPathsNonEmpty(Join(path, name), child, load);
        forall i | 0 <= i < |items| ensures items[i].linkPath != "" {
          assert items[i] in items;
        }
        PrefixedKeepsAll(name, items);
        var merged := Prefixed(name, items);
        assert EntryItems(path, name, child, load) == merged;
        forall it | it in merged ensures it.linkPath != "" {
          var i :| 0 <= i < |merged| && merged[i] == it;
          assert it == Rebased(name, items[i]);
        }
  }

  /** A container folder contributes all of its own sorted items, in their order, each re-addressed by the folder name. */
  lemma ContainerMerged(path: string, name: string, child: Node, load: string -> YamlDoc)
    requires child.Dir? && ReadChapterConfig(child.entries).None?
    ensures |EntryItems(path, name, child, load)| == |ProcessDir(Join(path, name), child, load)|
    ensures forall i :: 0 <= i < |EntryItems(path, name, child, load)| ==>
              EntryItems(path, name, child, load)[i] == Rebased(name, ProcessDir(Join(path, name), child, load)[i])
  {
    var sub := ProcessDir(Join(path, name), child, load);
    LinkPathsNonEmpty(Join(path, name), child, load);
    forall i | 0 <= i < |sub| ensures sub[i].linkPath != "" {
      assert sub[i] in sub;
    }
    PrefixedKeepsAll(name, sub);
  }

  /** A subfolder with a chapter configuration appears in its parent as the one link to its own index. */
  lemma ChapterFolderLinked(path: string, m: map<string, Node>, name: string, cfg: ChapterConfig, load: string -> YamlDoc)
    requires name in m && m[name].Dir? && ReadChapterConfig(m[name].entries) == Some(cfg)
    ensures ChapterLink(name, cfg) in ProcessDir(path, Dir(m), load)
    ensures ChapterLink(name, cfg).linkPath == name + "/index"
  {
    EntryItemInDir(path, m, name, load, ChapterLink(name, cfg));
  }

  /** A folder whose `.chapterconf` reads `order=<n>` then `title=<t>` is headed by `t` in its own index. */
  lemma HeadingFromConfig(path: string, m: map<string, Node>, n: nat, t: string, tail: string)
    requires t != [] && !IsSpace(t[0]) && !IsSpace(t[|t| - 1]) && NoNewline(t)
    requires tail == [] || tail[0] == '\n'
    requires ConfigName in m && m[ConfigName] == File(Text("order=" + ShowNat(n) + "\ntitle=" + t + tail))
    ensures IndexTitle(path, m) == t
  {
    ChapterConfigRoundTrip(n, t, tail);
  }

  /** A folder without a readable `.chapterconf`, or whose config has no `title` field, is headed by its own name. */
  lemma HeadingWithoutTitle(path: string, m: map<string, Node>)
    requires ConfigName !in m || !m[ConfigName].File? || !m[ConfigName].content.Text?
             || NoMatchBetween(m[ConfigName].content.text, ConfigTitle, 0, |m[ConfigName].content.text| + 1)
    ensures IndexTitle(path, m) == Basename(path)
  {
  }

  /** The items of a subfolder without a configuration surface in the parent, re-addressed by the folder name. */
  lemma ContainerItemsSurface(path: string, m: map<string, Node>, name: string, load: string -> YamlDoc, it: Item)
    requires name in m && m[name].Dir? && ReadChapterConfig(m[name].entries).None?
    requires it in ProcessDir(Join(path, name), m[name], load)
    ensures Rebased(name, it) in ProcessDir(path, Dir(m), load)
  {
    var sub := ProcessDir(Join(path, name), m[name], load);
    ContainerMerged(path, name, m[name], load);
    var i :| 0 <= i < |sub| && sub[i] == it;
    assert EntryItems(path, name, m[name], load)[i] == Rebased(name, it);
    EntryItemInDir(path, m, name, load, Rebased(name, it));
  }

  /** Every Markdown or reStructuredText file other than `index.rst` is linked, whatever its metadata. */
  lemma ContentFileLinked(path: string, m: map<string, Node>, name: string, load: string -> YamlDoc)
    requires name in m && m[name].File? && IsContentName(name)
    ensures FileItem(name, m[name].content, load).Some?
    ensures FileItem(name, m[name].content, load).value in ProcessDir(path, Dir(m), load)
  {
    EntryItemInDir(path, m, name, load, FileItem(name, m[name].content, load).value);
  }

  /** A Markdown file with no front matter is still linked, last in order and flagged for review. */
  lemma MarkdownWithoutFrontMatterLinked(path: string, m: map<string, Node>, name: string, text: string, load: string -> YamlDoc)
    requires name in m && m[name] == File(Text(text)) && Lower(SplitExt(name).1) == ".md"
    requires text == [] || text[0] != '-'
    ensures FileItem(name, m[name].content, load) == Some(Item(DefaultOrder, SplitExt(name).0, SplitExt(name).0, true))
    ensures Item(DefaultOrder, SplitExt(name).0, SplitExt(name).0, true) in ProcessDir(path, Dir(m), load)
  {
    MarkdownWithoutFrontMatter(text, load);
    assert name != IndexName by {
      var (root, ext) := SplitExt(name);
      assert |ext| == 3 && Lower(ext)[2] == 'd';
      assert name[|name| - 1] == ext[2] by {
        assert name == root + ext;
      }
      assert IndexName[|IndexName| - 1] == 't';
    }
    ContentFileLinked(path, m, name, load);
  }
}

/** What `process_directory` writes: one `index.rst` per directory, children before parents. */
module WriteFacts {
  import opened Wrappers
  import opened Text
  import opened Paths
  import opened FileTree
  import opened Metadata
  import opened Walker

  ghost predicate InfixAt<T>(w: seq<T>, s: seq<T>, i: int) {
    0 <= i <= |s| - |w| && s[i..i + |w|] == w
  }

  /** `w` occurs as one contiguous block of `s`. */
  ghost predicate IsInfix<T>(w: seq<T>, s: seq<T>) {
    exists i :: InfixAt(w, s, i)
  }

  lemma InfixMembers<T>(w: seq<T>, s: seq<T>, x: T)
    requires IsInfix(w, s) && x in w
    ensures x in s
  {
    var i :| InfixAt(w, s, i);
    var k :| 0 <= k < |w| && w[k] == x;
    assert s[i + k] == x;
  }

  lemma InfixExtended<T>(w: seq<T>, s: seq<T>, t: seq<T>)
    requires IsInfix(w, s)
    ensures IsInfix(w, s + t)
  {
    var j :| InfixAt(w, s, j);
    assert (s + t)[j..j + |w|] == s[j..j + |w|];
    assert InfixAt(w, s + t, j);
  }

  lemma InfixAtEnd<T>(s: seq<T>, w: seq<T>)
    ensures IsInfix(w, s + w)
  {
    assert (s + w)[|s|..|s| + |w|] == w;
    assert InfixAt(w, s + w, |s|);
  }

  lemma WritesStep(path: string, m: map<string, Node>, names: seq<string>, load: string -> YamlDoc)
    requires forall n :: n in names ==> n in m
    requires names != []
    ensures SubdirWrites(path, m, names, load)
         == SubdirWrites(path, m, names[..|names| - 1], load) + DirWrites(Join(path, names[|names| - 1]), m[names[|names| - 1]], load)
  {
  }

  /** The writes of a visited subdirectory form one contiguous block of the visit's writes. */
  lemma {:induction false} SubdirWritesBlock(path: string, m: map<string, Node>, names: seq<string>, i: nat, load: string -> YamlDoc)
    requires forall n :: n in names ==> n in m
    requires i < |names|
    ensures IsInfix(DirWrites(Join(path, names[i]), m[names[i]], load), SubdirWrites(path, m, names, load))
  {
    var last := |names| - 1;
    var init := names[..last];
    WritesStep(path, m, names, load);
    var before := SubdirWrites(path, m, init, load);
    var after := DirWrites(Join(path, names[last]), m[names[last]], load);
    if i < last {
      assert init[i] == names[i];
      SubdirWritesBlock(path, m, init, i, load);
      InfixExtended(DirWrites(Join(path, names[i]), m[names[i]], load), before, after);
    } else {
      assert i == last;
      InfixAtEnd(before, after);
    }
  }

  /**
   * Post-order: a directory's last write is its own `index.rst`, and every
   * subdirectory's writes come, as one block, before it.
   */
  lemma ChildWritesBeforeOwn(path: string, m: map<string, Node>, name: string, load: string -> YamlDoc)
    requires name in m
    ensures DirWrites(path, Dir(m), load) != []
    ensures DirWrites(path, Dir(m), load)[|DirWrites(path, Dir(m), load)| - 1] == IndexWrite(path, m, load)
    ensures IsInfix(DirWrites(Join(path, name), m[name], load), DirWrites(path, Dir(m), load)[..|DirWrites(path, Dir(m), load)| - 1])
  {
    var names := SortedNames(m.Keys);
    var i :| 0 <= i < |names| && names[i] == name;
    SubdirWritesBlock(path, m, names, i, load);
    var d := DirWrites(path, Dir(m), load);
    assert d[..|d| - 1] == SubdirWrites(path, m, names, load);
  }

  /** The entry reached by following a sequence of names down from a node. */
  function Descend(node: Node, rel: seq<string>): Option<Node>
    decreases rel
  {
    if rel == [] then Some(node)
    else match node
      case File(_) => None
      case Dir(m) => if rel[0] in m then Descend(m[rel[0]], rel[1..]) else None
  }

  /** The path of that entry, built as `process_directory` builds `full_path`. */
  function JoinAll(path: string, rel: seq<string>): string
    decreases rel
  {
    if rel == [] then path else JoinAll(Join(path, rel[0]), rel[1..])
  }

  predicate DirectoryAt(node: Node, rel: seq<string>) {
    Descend(node, rel).Some? && Descend(node, rel).value.Dir?
  }

  /** Every directory below the starting one, container folders included, gets its own `index.rst`. */
  lemma {:induction false} EveryDirectoryIndexed(path: string, node: Node, rel: seq<string>, load: string -> YamlDoc)
    requires DirectoryAt(node, rel)
    ensures IndexWrite(JoinAll(path, rel), Descend(node, rel).value.entries, load) in DirWrites(path, node, load)
    decreases rel
  {
    if rel == [] {
      var d := DirWrites(path, node, load);
      assert d[|d| - 1] == IndexWrite(path, node.entries, load);
    } else {
      var m := node.entries;
      var name := rel[0];
      EveryDirectoryIndexed(Join(path, name), m[name], rel[1..], load);
      ChildWritesBeforeOwn(path, m, name, load);
      var d := DirWrites(path, node, load);
      InfixMembers(DirWrites(Join(path, name), m[name], load), d[..|d| - 1],
        IndexWrite(JoinAll(path, rel), Descend(node, rel).value.entries, load));
    }
  }

  /** Every write of a visit is in the writes of one of its subdirectories: the one returned. */
  lemma {:induction false} SubdirWriteFrom(path: string, m: map<string, Node>, names: seq<string>, load: string -> YamlDoc, w: Write)
    returns (name: string)
    requires forall n :: n in names ==> n in m
    requires w in SubdirWrites(path, m, names, load)
    ensures name in names && w in DirWrites(Join(path, name), m[name], load)
  {
    var last := |names| - 1;
    var init := names[..last];
    WritesStep(path, m, names, load);
    if w in SubdirWrites(path, m, init, load) {
      name := SubdirWriteFrom(path, m, init, load, w);
    } else {
      name := names[last];
    }
  }

  lemma DescendStep(m: map<string, Node>, name: string, rel: seq<string>)
    requires name in m
    ensures Descend(Dir(m), [name] + rel) == Descend(m[name], rel)
    ensures DirectoryAt(m[name], rel) ==> DirectoryAt(Dir(m), [name] + rel)
  {
    var full := [name] + rel;
    assert full[0] == name && full[1..] == rel;
  }

  lemma JoinAllStep(path: string, name: string, rel: seq<string>)
    ensures JoinAll(path, [name] + rel) == JoinAll(Join(path, name), rel)
  {
    var full := [name] + rel;
    assert full[0] == name && full[1..] == rel;
  }

  lemma DirWritesUnfold(path: string, m: map<string, Node>, load: string -> YamlDoc)
    ensures DirWrites(path, Dir(m), load) == SubdirWrites(path, m, SortedNames(m.Keys), load) + [IndexWrite(path, m, load)]
  {
  }

  /** `w` is the `index.rst` of the directory reached by `rel`. */
  predicate IndexOfDirectoryAt(path: string, node: Node, load: string -> YamlDoc, w: Write, rel: seq<string>) {
    DirectoryAt(node, rel) && w == IndexWrite(JoinAll(path, rel), Descend(node, rel).value.entries, load)
  }

  lemma IndexedBelow(path: string, m: map<string, Node>, name: string, load: string -> YamlDoc, w: Write, rel: seq<string>)
    requires name in m && IndexOfDirectoryAt(Join(path, name), m[name], load, w, rel)
    ensures IndexOfDirectoryAt(path, Dir(m), load, w, [name] + rel)
  {
    DescendStep(m, name, rel);
    JoinAllStep(path, name, rel);
  }

  lemma OnlyLast<T>(s: seq<T>, x: T, y: T)
    requires y in s + [x] && y !in s
    ensures y == x
  {
  }

  lemma IndexedHere(path: string, node: Node, load: string -> YamlDoc, w: Write)
    requires node.Dir? && w == IndexWrite(path, node.entries, load)
    ensures IndexOfDirectoryAt(path, node, load, w, [])
  {
  }

  /** Nothing else is written: every write is the `index.rst` of some directory below the starting one. */
  lemma OnlyIndexesWritten(path: string, node: Node, load: string -> YamlDoc, w: Write)
    requires w in DirWrites(path, node, load)
    ensures exists rel :: IndexOfDirectoryAt(path, node, load, w, rel)
  {
    var rel := IndexPathOf(path, node, load, w);
  }

  /** The path below `path` of the directory whose `index.rst` is `w`. */
  lemma {:induction false} IndexPathOf(path: string, node: Node, load: string -> YamlDoc, w: Write) returns (rel: seq<string>)
    requires w in DirWrites(path, node, load)
    ensures IndexOfDirectoryAt(path, node, load, w, rel)
    decreases node, 2
  {
    assert node.Dir?;
    DirWritesUnfold(path, node.entries, load);
    var below := SubdirWrites(path, node.entries, SortedNames(node.entries.Keys), load);
    if w in below {
      rel := IndexPathBelow(path, node.entries, load, w);
    } else {
      OnlyLast(below, IndexWrite(path, node.entries, load), w);
      IndexedHere(path, node, load, w);
      rel := [];
    }
  }

  /** A write made while walking the sub-directories is the index of some directory below `path`. */
  lemma {:induction false} IndexPathBelow(path: string, m: map<string, Node>, load: string -> YamlDoc, w: Write) returns (rel: seq<string>)
    requires w in SubdirWrites(path, m, SortedNames(m.Keys), load)
    ensures IndexOfDirectoryAt(path, Dir(m), load, w, rel)
    decreases Dir(m), 1
  {
    var name := SubdirWriteFrom(path, m, SortedNames(m.Keys), load, w);
    rel := IndexPathIn(path, m, name, load, w);
  }

  /** A write made while visiting the sub-directory `name` is the index of a directory below `path`. */
  lemma {:induction false} IndexPathIn(path: string, m: map<string, Node>, name: string, load: string -> YamlDoc, w: Write) returns (rel: seq<string>)
    requires name in m && w in DirWrites(Join(path, name), m[name], load)
    ensures IndexOfDirectoryAt(path, Dir(m), load, w, rel)
    decreases Dir(m), 0
  {
    var sub := IndexPathOf(Join(path, name), m[name], load, w);
    IndexedBelow(path, m, name, load, w, sub);
    rel := [name] + sub;
  }
}
