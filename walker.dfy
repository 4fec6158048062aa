/**
 * `process_directory`: the recursive walk that collects one directory's
 * navigation items, sorts them by order, writes the directory's `index.rst`
 * and hands the sorted items to its caller. The functions state what the
 * walk computes and writes; the method `ProcessDirectory` is the walk itself,
 * proved to compute exactly that.
 */
module Walker {
  import opened Wrappers
  import opened Text
  import opened Paths
  import opened FileTree
  import opened Metadata
  import opened StableSort

  /** The generated file of every directory, never itself taken for content. */
  const IndexName := "index.rst"

  /** One toctree link: `{'order', 'title', 'link_path', 'issues'}`. */
  datatype Item = Item(order: int, title: string, linkPath: string, issues: bool)

  /** The sort key of `items_to_link.sort(key=lambda x: x['order'])`. */
  function OrderOf(it: Item): int {
    it.order
  }

  /** Python's `title or fallback`: a missing or empty title gives way to the fallback. */
  function TitleOr(t: Option<string>, fallback: string): (r: string)
    ensures t.Some? && t.value != "" ==> r == t.value
    ensures t.None? || t.value == "" ==> r == fallback
  {
    if t.Some? && t.value != "" then t.value else fallback
  }

  /** The reader a file name selects: `.md` and `.rst` in any letter case, nothing for other names. */
  function ReadContentMetadata(name: string, c: Content, load: string -> YamlDoc): (r: Option<ContentMetadata>)
    ensures r.Some? <==> Lower(SplitExt(name).1) in {".md", ".rst"}
    ensures Lower(SplitExt(name).1) == ".md" ==> r == Some(ExtractMd(c, load))
    ensures Lower(SplitExt(name).1) == ".rst" ==> r == Some(ExtractRst(c))
  {
    var ext := Lower(SplitExt(name).1);
    if ext == ".md" then Some(ExtractMd(c, load))
    else if ext == ".rst" then Some(ExtractRst(c))
    else None
  }

  /** A file that gets a link: not the index itself, and a Markdown or reStructuredText extension. */
  predicate IsContentName(name: string) {
    name != IndexName && Lower(SplitExt(name).1) in {".md", ".rst"}
  }

  /**
   * The item of a content file: linked by its base name, titled by its
   * metadata title or else that base name, flagged when its order was missing.
   */
  function FileItem(name: string, c: Content, load: string -> YamlDoc): (r: Option<Item>)
    ensures r.Some? <==> IsContentName(name)
    ensures r.Some? ==> r.value.linkPath == SplitExt(name).0 && r.value.linkPath != "" && r.value.title != ""
    ensures r.Some? ==> r.value.title == TitleOr(ReadContentMetadata(name, c, load).value.title, SplitExt(name).0)
    ensures r.Some? ==> r.value.order == ReadContentMetadata(name, c, load).value.order
    ensures r.Some? ==> r.value.issues == !ReadContentMetadata(name, c, load).value.valid
  {
    if name == IndexName then None
    else match ReadContentMetadata(name, c, load)
      case None => None
      case Some(meta) =>
        var base := SplitExt(name).0;
        assert |SplitExt(name).1| == |Lower(SplitExt(name).1)| > 0;
        Some(Item(meta.order, TitleOr(meta.title, base), base, !meta.valid))
  }

  /** The one item a chapter folder contributes to its parent: a link to its own index. */
  function ChapterLink(name: string, cfg: ChapterConfig): Item {
    Item(cfg.order, TitleOr(cfg.title, name), name + "/index", false)
  }

  /** An item of a container folder, re-addressed from the folder's parent. */
  function Rebased(name: string, it: Item): Item {
    it.(linkPath := Join(name, it.linkPath))
  }

  /** The merge loop over a container folder's items: every item with a link path, re-addressed. */
  function Prefixed(name: string, items: seq<Item>): (r: seq<Item>)
    ensures |r| <= |items|
  {
    if items == [] then []
    else
      var last := items[|items| - 1];
      Prefixed(name, items[..|items| - 1]) + (if last.linkPath != "" then [Rebased(name, last)] else [])
  }

  /** `process_directory(path)`: the sorted items of a directory, nothing for a file. */
  function ProcessDir(path: string, node: Node, load: string -> YamlDoc): seq<Item>
    decreases node, 2
  {
    match node
    case File(_) => []
    case Dir(m) => SortByKey(Collect(path, m, SortedNames(m.Keys), load), OrderOf)
  }

  /** `items_to_link` after visiting `names` in order. */
  function Collect(path: string, m: map<string, Node>, names: seq<string>, load: string -> YamlDoc): seq<Item>
    requires forall n :: n in names ==> n in m
    decreases Dir(m), 1, |names|
  {
    if names == [] then []
    else
      var name := names[|names| - 1];
      Collect(path, m, names[..|names| - 1], load) + EntryItems(path, name, m[name], load)
  }

  /** What one directory entry adds to `items_to_link`. */
  function EntryItems(path: string, name: string, child: Node, load: string -> YamlDoc): seq<Item>
    decreases child, 3
  {
    match child
    case Dir(sub) =>
      (match ReadChapterConfig(sub)
       case Some(cfg) => [ChapterLink(name, cfg)]
       case None => Prefixed(name, ProcessDir(Join(path, name), child, load)))
    case File(c) =>
      (match FileItem(name, c, load)
       case Some(it) => [it]
       case None => [])
  }

  /** One toctree line: `Title <path>` when the title says more than the path, else the bare path. */
  function EntryLine(it: Item): string {
    if it.title != "" && it.title != it.linkPath then "   " + it.title + " <" + it.linkPath + ">"
    else "   " + it.linkPath
  }

  function EntryLines(items: seq<Item>): (r: seq<string>)
    ensures |r| == |items| && forall i :: 0 <= i < |items| ==> r[i] == EntryLine(items[i])
  {
    seq(|items|, i requires 0 <= i < |items| => EntryLine(items[i]))
  }

  /** The heading of a directory's index: its config title, else the last component of its path. */
  function IndexTitle(path: string, entries: map<string, Node>): (r: string)
    ensures ReadChapterConfig(entries).Some? && ReadChapterConfig(entries).value.title.Some?
            && ReadChapterConfig(entries).value.title.value != ""
            ==> r == ReadChapterConfig(entries).value.title.value
    ensures ReadChapterConfig(entries).None? || ReadChapterConfig(entries).value.title.None?
            || ReadChapterConfig(entries).value.title.value == ""
            ==> r == Basename(path)
  {
    match ReadChapterConfig(entries)
    case Some(cfg) => TitleOr(cfg.title, Basename(path))
    case None => Basename(path)
  }

  function IndexHeader(title: string): string {
    title + "\n" + Repeat('=', |title|) + "\n\n"
  }

  function Toctree(title: string, entries: seq<string>): string {
    ".. toctree::\n" + "   :maxdepth: 2\n" + "   :caption: " + title + " Content:\n\n" + JoinLines(entries) + "\n"
  }

  /** The text of a generated `index.rst`. */
  function IndexText(title: string, items: seq<Item>): string {
    IndexHeader(title) + Toctree(title, EntryLines(items))
  }

  /** Every file `process_directory(path)` writes, in order: its subdirectories' first, its own last. */
  function DirWrites(path: string, node: Node, load: string -> YamlDoc): seq<Write>
    decreases node, 1
  {
    match node
    case File(_) => []
    case Dir(m) =>
      SubdirWrites(path, m, SortedNames(m.Keys), load) + [IndexWrite(path, m, load)]
  }

  /** The `index.rst` a directory's own call writes. */
  function IndexWrite(path: string, m: map<string, Node>, load: string -> YamlDoc): Write {
    Write(Join(path, IndexName), IndexText(IndexTitle(path, m), ProcessDir(path, Dir(m), load)))
  }

  /** The writes of the recursive calls made while visiting `names` in order. */
  function SubdirWrites(path: string, m: map<string, Node>, names: seq<string>, load: string -> YamlDoc): seq<Write>
    requires forall n :: n in names ==> n in m
    decreases Dir(m), 0, |names|
  {
    if names == [] then []
    else
      var name := names[|names| - 1];
      SubdirWrites(path, m, names[..|names| - 1], load) + DirWrites(Join(path, name), m[name], load)
  }

  /**
   * `process_directory(root_dir, path)`: visits the entries in name order,
   * recursing into every subdirectory, sorts the collected items in place,
   * renders them and writes `index.rst`.
   */
  method ProcessDirectory(disk: Disk, path: string, node: Node, load: string -> YamlDoc) returns (items: seq<Item>)
    modifies disk
    ensures items == ProcessDir(path, node, load)
    ensures disk.log == old(disk.log) + DirWrites(path, node, load)
    decreases node, 2
  {
    if !node.Dir? {
      return [];
    }
    var m := node.entries;
    var collected := VisitEntries(disk, path, m, load);
    items := SortItems(collected);

    var entries := RenderEntries(items);
    var title := IndexTitle(path, m);
    ghost var own := Write(Join(path, IndexName), IndexHeader(title) + Toctree(title, entries));
    ghost var subWrites := SubdirWrites(path, m, SortedNames(m.Keys), load);
    assert DirWrites(path, node, load) == subWrites + [own];
    disk.WriteFile(Join(path, IndexName), IndexHeader(title) + Toctree(title, entries));
    AppendAssoc(old(disk.log), subWrites, [own]);
  }

  /** The entry loop of `process_directory`: every entry, in sorted name order. */
  method VisitEntries(disk: Disk, path: string, m: map<string, Node>, load: string -> YamlDoc) returns (collected: seq<Item>)
    modifies disk
    ensures collected == Collect(path, m, SortedNames(m.Keys), load)
    ensures disk.log == old(disk.log) + SubdirWrites(path, m, SortedNames(m.Keys), load)
    decreases Dir(m), 1
  {
    var names := SortedNames(m.Keys);
    collected := [];
    ghost var subWrites: seq<Write> := [];
    ghost var log0 := disk.log;
    var i := 0;
    while i < |names|
      invariant 0 <= i <= |names|
      invariant collected == Collect(path, m, names[..i], load)
      invariant subWrites == SubdirWrites(path, m, names[..i], load)
      invariant disk.log == log0 + subWrites
    {
      var name := names[i];
      var added := VisitEntry(disk, path, name, m[name], load);
      ghost var w := DirWrites(Join(path, name), m[name], load);
      VisitStep(path, m, names, i, load);
      AppendAssoc(log0, subWrites, w);
      subWrites := subWrites + w;
      collected := collected + added;
      i := i + 1;
    }
    assert names[..|names|] == names;
  }

  lemma VisitStep(path: string, m: map<string, Node>, names: seq<string>, i: nat, load: string -> YamlDoc)
    requires i < |names| && forall n :: n in names ==> n in m
    ensures Collect(path, m, names[..i + 1], load) == Collect(path, m, names[..i], load) + EntryItems(path, names[i], m[names[i]], load)
    ensures SubdirWrites(path, m, names[..i + 1], load) == SubdirWrites(path, m, names[..i], load) + DirWrites(Join(path, names[i]), m[names[i]], load)
  {
    assert names[..i + 1][..i] == names[..i];
  }

  lemma AppendAssoc<T>(a: seq<T>, b: seq<T>, c: seq<T>)
    ensures (a + b) + c == a + (b + c)
  {
  }

  /** The body of the entry loop of `process_directory`, for one entry. */
  method VisitEntry(disk: Disk, path: string, name: string, child: Node, load: string -> YamlDoc) returns (added: seq<Item>)
    modifies disk
    ensures added == EntryItems(path, name, child, load)
    ensures disk.log == old(disk.log) + DirWrites(Join(path, name), child, load)
    decreases child, 3
  {
    if child.Dir? {
      var config := ReadChapterConfig(child.entries);
      var sub := ProcessDirectory(disk, Join(path, name), child, load);
      if config.Some? {
        added := [ChapterLink(name, config.value)];
      } else {
        added := MergeContainer(name, sub);
      }
    } else {
      added := VisitFile(name, child.content, load);
    }
  }

  /** The file branch of the entry loop: a content file other than `index.rst` adds its item. */
  method VisitFile(name: string, c: Content, load: string -> YamlDoc) returns (added: seq<Item>)
    ensures FileItem(name, c, load).Some? ==> added == [FileItem(name, c, load).value]
    ensures FileItem(name, c, load).None? ==> added == []
  {
    added := [];
    if name != IndexName {
      var ext := Lower(SplitExt(name).1);
      var meta: Option<ContentMetadata> := None;
      if ext == ".md" {
        meta := Some(ExtractMd(c, load));
      } else if ext == ".rst" {
        meta := Some(ExtractRst(c));
      }
      if meta.Some? {
        var base := SplitExt(name).0;
        added := [Item(meta.value.order, TitleOr(meta.value.title, base), base, !meta.value.valid)];
      }
    }
  }

  /** The merge loop over a container folder's items. */
  method MergeContainer(name: string, sub: seq<Item>) returns (merged: seq<Item>)
    ensures merged == Prefixed(name, sub)
  {
    merged := [];
    var j := 0;
    while j < |sub|
      invariant 0 <= j <= |sub|
      invariant merged == Prefixed(name, sub[..j])
    {
      assert sub[..j + 1][..j] == sub[..j];
      if sub[j].linkPath != "" {
        merged := merged + [sub[j].(linkPath := Join(name, sub[j].linkPath))];
      }
      j := j + 1;
    }
    assert sub[..|sub|] == sub;
  }

  /** `items_to_link.sort(key=lambda x: x['order'])`, on a copy of the list in an array. */
  method SortItems(collected: seq<Item>) returns (items: seq<Item>)
    ensures items == SortByKey(collected, OrderOf)
  {
    var a := new Item[|collected|](k requires 0 <= k < |collected| => collected[k]);
    assert a[..] == collected;
    SortInPlace(a, OrderOf);
    items := a[..];
  }

  /** The toctree lines of the sorted items. */
  method RenderEntries(items: seq<Item>) returns (entries: seq<string>)
    ensures entries == EntryLines(items)
  {
    entries := [];
    for k := 0 to |items|
      invariant entries == EntryLines(items[..k])
    {
      entries := entries + [EntryLine(items[k])];
    }
    assert items[..|items|] == items;
  }
}
