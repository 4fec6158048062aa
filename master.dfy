// The top level of the generator: choosing the chapters under `chapters/`,
// processing each of them, and filling the master index template.

module Master {
  import opened Wrappers
  import opened Text
  import opened Paths
  import opened FileTree
  import opened Metadata
  import opened StableSort
  import opened Walker
  import opened WriteFacts

  /** The marker in the master template that the chapter links replace. */
  const Placeholder := "<<DYNAMIC_CHAPTER_LINKS>>"
  /** The folder, below the root, that holds the top-level chapters. */
  const ChaptersDir := "chapters"
  const TemplateName := "index_template.rst"

  /** One top-level chapter: its folder name, its order and its display title. */
  datatype Chapter = Chapter(pathName: string, order: nat, title: string)

  function ChapterOrder(c: Chapter): int { c.order }

  /** A directory listing names every entry exactly once, in some order. */
  ghost predicate ListsEntries(listing: seq<string>, entries: map<string, Node>) {
    (forall n :: n in listing <==> n in entries)
    && forall i, j :: 0 <= i < j < |listing| ==> listing[i] != listing[j]
  }

  /** The chapter record of the entry `name`: present only for a sub-directory with a config. */
  function ChapterOf(entries: map<string, Node>, name: string): (r: Option<Chapter>)
    requires name in entries
    ensures r.Some? <==> entries[name].Dir? && ReadChapterConfig(entries[name].entries).Some?
    ensures r.Some? ==> r.value.pathName == name
                        && r.value.order == ReadChapterConfig(entries[name].entries).value.order
                        && r.value.title == TitleOr(ReadChapterConfig(entries[name].entries).value.title, name)
  {
    match entries[name]
    case File(_) => None
    case Dir(sub) =>
      match ReadChapterConfig(sub)
      case None => None
      case Some(cfg) => Some(Chapter(name, cfg.order, TitleOr(cfg.title, name)))
  }

  /** The chapters found among the first names of a listing, in listing order. */
  function Selected(entries: map<string, Node>, listing: seq<string>): (r: seq<Chapter>)
    requires forall n :: n in listing ==> n in entries
    ensures |r| <= |listing|
  {
    if listing == [] then []
    else
      var last := listing[|listing| - 1];
      Selected(entries, listing[..|listing| - 1])
        + (match ChapterOf(entries, last) case Some(c) => [c] case None => [])
  }

  /** The top-level chapters, stably sorted by their order. */
  function TopLevelChapters(entries: map<string, Node>, listing: seq<string>): seq<Chapter>
    requires forall n :: n in listing ==> n in entries
  {
    SortByKey(Selected(entries, listing), ChapterOrder)
  }

  /** The master toctree line of one chapter, pointing at the index written in its folder. */
  function MasterLine(c: Chapter): string {
    "   " + ChaptersDir + "/" + c.pathName + "/index"
  }

  /** The toctree line of each top-level chapter. */
  function MasterLinks(chapters: seq<Chapter>): seq<string> {
    seq(|chapters|, i requires 0 <= i < |chapters| => MasterLine(chapters[i]))
  }

  /** What replaces every placeholder: the link lines, with a line feed before and after. */
  function LinkBlock(chapters: seq<Chapter>): string {
    "\n" + JoinLines(MasterLinks(chapters)) + "\n"
  }

  /**
   * `update_master_index` on the template text (absent when it cannot be
   * read): the new master index, or nothing when there is no template or it
   * has no placeholder.
   */
  function UpdateMasterIndex(template: Option<string>, chapters: seq<Chapter>): (r: Option<string>)
    ensures r.Some? <==> template.Some? && Contains(template.value, Placeholder)
  {
    match template
    case None => None
    case Some(t) =>
      match IndexOf(t, Placeholder, 0)
      case None =>
        assert !Contains(t, Placeholder);
        None
      case Some(_) => Some(ReplaceAll(t, Placeholder, LinkBlock(chapters)))
  }

  /** The template's text, when it is a readable file under the root. */
  function Template(root: map<string, Node>): Option<string> {
    if TemplateName in root && root[TemplateName].File? && root[TemplateName].content.Text? then
      Some(root[TemplateName].content.text)
    else
      None
  }

  /** The master index write, if any. */
  function MasterWrites(rootPath: string, root: map<string, Node>, chapters: seq<Chapter>): seq<Write> {
    match UpdateMasterIndex(Template(root), chapters)
    case None => []
    case Some(text) => [Write(Join(rootPath, IndexName), text)]
  }

  /** The writes of processing the given chapters one after the other. */
  function ChapterWrites(chaptersPath: string, entries: map<string, Node>, chapters: seq<Chapter>, load: string -> YamlDoc): seq<Write>
    requires forall c :: c in chapters ==> c.pathName in entries
  {
    if chapters == [] then []
    else
      var last := chapters[|chapters| - 1];
      ChapterWrites(chaptersPath, entries, chapters[..|chapters| - 1], load)
        + DirWrites(Join(chaptersPath, last.pathName), entries[last.pathName], load)
  }

  /** The chapters root, when it is a directory. */
  function ChaptersRoot(root: Node): Option<map<string, Node>> {
    if root.Dir? && ChaptersDir in root.entries && root.entries[ChaptersDir].Dir? then
      Some(root.entries[ChaptersDir].entries)
    else
      None
  }

  /** Every write of a whole run, from the root directory `root` at `rootPath`. */
  function RunWrites(rootPath: string, root: Node, listing: seq<string>, load: string -> YamlDoc): seq<Write>
    requires ChaptersRoot(root).Some? ==> ListsEntries(listing, ChaptersRoot(root).value)
  {
    match ChaptersRoot(root)
    case None => []
    case Some(entries) =>
      var chapters := TopLevelChapters(entries, listing);
      SelectedFromEntries(entries, listing);
      ChapterWrites(Join(rootPath, ChaptersDir), entries, chapters, load)
        + MasterWrites(rootPath, root.entries, chapters)
  }

  /** Every selected chapter names an entry of the directory. */
  lemma SelectedFromEntries(entries: map<string, Node>, listing: seq<string>)
    requires forall n :: n in listing ==> n in entries
    ensures forall c :: c in TopLevelChapters(entries, listing) ==> c.pathName in entries
  {
    forall c | c in TopLevelChapters(entries, listing) ensures c.pathName in entries {
      SelectedMembers(entries, listing, c);
      assert multiset(TopLevelChapters(entries, listing)) == multiset(Selected(entries, listing));
      assert c in multiset(Selected(entries, listing));
    }
  }

  /**
   * A chapter is selected exactly when it is the record of a listed
   * sub-directory that has a config.
   */
  lemma {:induction false} SelectedMembers(entries: map<string, Node>, listing: seq<string>, c: Chapter)
    requires forall n :: n in listing ==> n in entries
    ensures c in Selected(entries, listing) <==> c.pathName in listing && ChapterOf(entries, c.pathName) == Some(c)
  {
    if listing != [] {
      var init := listing[..|listing| - 1];
      var last := listing[|listing| - 1];
      assert listing == init + [last];
      SelectedMembers(entries, init, c);
      assert c.pathName in listing <==> c.pathName in init || c.pathName == last;
    }
  }

  /**
   * The main loop's selection: with a listing of the chapters root, the
   * chapters are exactly the configured sub-directories, sorted by order,
   * ties keeping the listing order.
   */
  lemma TopLevelChaptersSpec(entries: map<string, Node>, listing: seq<string>, c: Chapter)
    requires ListsEntries(listing, entries)
    ensures c in TopLevelChapters(entries, listing) <==>
              c.pathName in entries && ChapterOf(entries, c.pathName) == Some(c)
    ensures SortedBy(TopLevelChapters(entries, listing), ChapterOrder)
    ensures multiset(TopLevelChapters(entries, listing)) == multiset(Selected(entries, listing))
    ensures forall k :: WithKey(TopLevelChapters(entries, listing), ChapterOrder, k) == WithKey(Selected(entries, listing), ChapterOrder, k)
  {
    var sel := Selected(entries, listing);
    var top := TopLevelChapters(entries, listing);
    SelectedMembers(entries, listing, c);
    assert c in top <==> c in multiset(sel);
    forall k ensures WithKey(top, ChapterOrder, k) == WithKey(sel, ChapterOrder, k) {
      SortByKeyStable(sel, ChapterOrder, k);
    }
  }

  /** Every configured sub-directory is a top-level chapter, with its config's order. */
  lemma ConfiguredFolderIsChapter(entries: map<string, Node>, listing: seq<string>, name: string)
    requires ListsEntries(listing, entries)
    requires name in entries && entries[name].Dir? && ReadChapterConfig(entries[name].entries).Some?
    ensures exists c :: c in TopLevelChapters(entries, listing) && c.pathName == name
                        && c.order == ReadChapterConfig(entries[name].entries).value.order
  {
    var c := ChapterOf(entries, name).value;
    TopLevelChaptersSpec(entries, listing, c);
  }

  /** Without a placeholder the master index is left alone. */
  lemma NoPlaceholderNoMaster(rootPath: string, root: map<string, Node>, chapters: seq<Chapter>)
    requires Template(root).None? || !Contains(Template(root).value, Placeholder)
    ensures MasterWrites(rootPath, root, chapters) == []
  {
  }

  /** With one placeholder the template is kept around it and the link block is put in its place. */
  lemma OnePlaceholder(pre: string, post: string, chapters: seq<Chapter>)
    requires forall i :: 0 <= i < |pre| ==> !Occurs(pre + Placeholder + post, i, Placeholder)
    requires !Contains(post, Placeholder)
    ensures UpdateMasterIndex(Some(pre + Placeholder + post), chapters) == Some(pre + LinkBlock(chapters) + post)
  {
    var t := pre + Placeholder + post;
    assert Occurs(t, |pre|, Placeholder) by {
      assert t[|pre|..|pre| + |Placeholder|] == Placeholder;
    }
    ReplaceAllFirst(pre, Placeholder, post, LinkBlock(chapters));
    ReplaceAllAbsent(post, Placeholder, LinkBlock(chapters));
  }

  /**
   * Every placeholder is replaced: a template split at each of its
   * placeholders, none of them starting inside a part or lying in the last
   * part, becomes its parts joined with the link block.
   */
  lemma EveryPlaceholder(parts: seq<string>, chapters: seq<Chapter>)
    requires |parts| >= 2
    requires forall k :: 0 <= k < |parts| - 1 ==> FirstAtEnd(parts[k], Placeholder)
    requires !Contains(parts[|parts| - 1], Placeholder)
    ensures UpdateMasterIndex(Some(JoinWith(Placeholder, parts)), chapters) == Some(JoinWith(LinkBlock(chapters), parts))
  {
    var block := LinkBlock(chapters);
    var t := JoinWith(Placeholder, parts);
    var rest := JoinWith(Placeholder, parts[1..]);
    assert t == parts[0] + Placeholder + rest;
    PlaceholderFound(parts[0], rest, chapters);
    assert UpdateMasterIndex(Some(t), chapters) == Some(ReplaceAll(t, Placeholder, block));
    ReplaceAllSplit(parts, Placeholder, block);
  }

  /** A template holding the placeholder is filled by replacing it. */
  lemma PlaceholderFound(pre: string, post: string, chapters: seq<Chapter>)
    ensures UpdateMasterIndex(Some(pre + Placeholder + post), chapters)
            == Some(ReplaceAll(pre + Placeholder + post, Placeholder, LinkBlock(chapters)))
  {
    var t := pre + Placeholder + post;
    assert Occurs(t, |pre|, Placeholder) by {
      assert t[|pre|..|pre| + |Placeholder|] == Placeholder;
    }
  }

  /** The link block holds one line per chapter, in order, between two line feeds. */
  lemma LinkBlockLines(chapters: seq<Chapter>)
    requires chapters != []
    requires forall c :: c in chapters ==> NoNewline(c.pathName)
    ensures SplitLines(JoinLines(MasterLinks(chapters))) == MasterLinks(chapters)
    ensures forall i :: 0 <= i < |chapters| ==> MasterLinks(chapters)[i] == "   chapters/" + chapters[i].pathName + "/index"
  {
    var links := MasterLinks(chapters);
    forall i | 0 <= i < |links| ensures NoNewline(links[i]) {
      var c := chapters[i];
      NoNewlineConcat("   chapters/", c.pathName);
      NoNewlineConcat("   chapters/" + c.pathName, "/index");
    }
    SplitJoinLines(links);
  }

  /** Every write of a chapter loop is the index of a directory below one of the chapters. */
  lemma {:induction false} ChapterIndexWritten(chaptersPath: string, entries: map<string, Node>, chapters: seq<Chapter>, load: string -> YamlDoc, i: nat)
    requires forall c :: c in chapters ==> c.pathName in entries
    requires i < |chapters| && entries[chapters[i].pathName].Dir?
    ensures IndexWrite(Join(chaptersPath, chapters[i].pathName), entries[chapters[i].pathName].entries, load)
              in ChapterWrites(chaptersPath, entries, chapters, load)
  {
    var last := |chapters| - 1;
    var init := chapters[..last];
    var name := chapters[i].pathName;
    if i == last {
      DirWritesUnfold(Join(chaptersPath, name), entries[name].entries, load);
      assert entries[name] == Dir(entries[name].entries);
    } else {
      assert init[i] == chapters[i];
      ChapterIndexWritten(chaptersPath, entries, init, load, i);
    }
  }

  /** Every top-level chapter gets its own `index.rst`. */
  lemma EveryChapterIndexed(rootPath: string, root: Node, listing: seq<string>, load: string -> YamlDoc, c: Chapter)
    requires ChaptersRoot(root).Some? && ListsEntries(listing, ChaptersRoot(root).value)
    requires c in TopLevelChapters(ChaptersRoot(root).value, listing)
    ensures c.pathName in ChaptersRoot(root).value && ChaptersRoot(root).value[c.pathName].Dir?
    ensures IndexWrite(Join(Join(rootPath, ChaptersDir), c.pathName), ChaptersRoot(root).value[c.pathName].entries, load)
              in RunWrites(rootPath, root, listing, load)
  {
    var entries := ChaptersRoot(root).value;
    var chapters := TopLevelChapters(entries, listing);
    TopLevelChaptersSpec(entries, listing, c);
    SelectedFromEntries(entries, listing);
    var i :| 0 <= i < |chapters| && chapters[i] == c;
    ChapterIndexWritten(Join(rootPath, ChaptersDir), entries, chapters, load, i);
  }

  /** When the master index is written, it is the last write of the run. */
  lemma MasterWrittenLast(rootPath: string, root: Node, listing: seq<string>, load: string -> YamlDoc)
    requires ChaptersRoot(root).Some? && ListsEntries(listing, ChaptersRoot(root).value)
    requires Template(root.entries).Some? && Contains(Template(root.entries).value, Placeholder)
    ensures var w := RunWrites(rootPath, root, listing, load);
            w != [] && w[|w| - 1].path == Join(rootPath, IndexName)
            && Some(w[|w| - 1].text) == UpdateMasterIndex(Template(root.entries), TopLevelChapters(ChaptersRoot(root).value, listing))
  {
  }

  /** Without a chapters root nothing is written. */
  lemma NoChaptersRootNoWrites(rootPath: string, root: Node, listing: seq<string>, load: string -> YamlDoc)
    requires ChaptersRoot(root).None?
    ensures RunWrites(rootPath, root, listing, load) == []
  {
  }

  /** The loop of the main block that collects the configured chapter folders, in listing order. */
  method SelectChapters(entries: map<string, Node>, listing: seq<string>) returns (chapters: seq<Chapter>)
    requires forall n :: n in listing ==> n in entries
    ensures chapters == Selected(entries, listing)
  {
    chapters := [];
    for i := 0 to |listing|
      invariant chapters == Selected(entries, listing[..i])
    {
      var item := listing[i];
      assert listing[..i + 1][..i] == listing[..i];
      if entries[item].Dir? {
        var config := ReadChapterConfig(entries[item].entries);
        if config.Some? {
          chapters := chapters + [Chapter(item, config.value.order, TitleOr(config.value.title, item))];
        }
      }
    }
    assert listing[..|listing|] == listing;
  }

  /** The stable sort of the chapters by order. */
  method SortChapters(selected: seq<Chapter>) returns (chapters: seq<Chapter>)
    ensures chapters == SortByKey(selected, ChapterOrder)
  {
    var a := new Chapter[|selected|](k requires 0 <= k < |selected| => selected[k]);
    assert a[..] == selected;
    SortInPlace(a, ChapterOrder);
    chapters := a[..];
  }

  /**
   * A whole run from the root directory: nothing when `chapters/` is not a
   * directory (the script stops there), otherwise every top-level chapter
   * processed in order and then the master index.
   */
  method Generate(disk: Disk, rootPath: string, root: Node, listing: seq<string>, load: string -> YamlDoc) returns (ok: bool)
    requires ChaptersRoot(root).Some? ==> ListsEntries(listing, ChaptersRoot(root).value)
    modifies disk
    ensures ok <==> ChaptersRoot(root).Some?
    ensures disk.log == old(disk.log) + RunWrites(rootPath, root, listing, load)
  {
    if !(root.Dir? && ChaptersDir in root.entries && root.entries[ChaptersDir].Dir?) {
      return false;
    }
    var entries := root.entries[ChaptersDir].entries;
    var selected := SelectChapters(entries, listing);
    var chapters := SortChapters(selected);
    SelectedFromEntries(entries, listing);
    ghost var chapterWrites := ChapterWrites(Join(rootPath, ChaptersDir), entries, chapters, load);
    ghost var masterWrites := MasterWrites(rootPath, root.entries, chapters);
    RunWritesUnfold(rootPath, root, listing, load);
    ProcessChapters(disk, Join(rootPath, ChaptersDir), entries, chapters, load);
    UpdateMaster(disk, rootPath, root.entries, chapters);
    AppendAssoc(old(disk.log), chapterWrites, masterWrites);
    ok := true;
  }

  lemma RunWritesUnfold(rootPath: string, root: Node, listing: seq<string>, load: string -> YamlDoc)
    requires ChaptersRoot(root).Some? && ListsEntries(listing, ChaptersRoot(root).value)
    ensures forall c :: c in TopLevelChapters(ChaptersRoot(root).value, listing) ==> c.pathName in ChaptersRoot(root).value
    ensures RunWrites(rootPath, root, listing, load)
            == ChapterWrites(Join(rootPath, ChaptersDir), ChaptersRoot(root).value, TopLevelChapters(ChaptersRoot(root).value, listing), load)
               + MasterWrites(rootPath, root.entries, TopLevelChapters(ChaptersRoot(root).value, listing))
  {
    SelectedFromEntries(ChaptersRoot(root).value, listing);
  }

  /** `update_master_index`: read the template, fill it in and write the master index when it has the placeholder. */
  method UpdateMaster(disk: Disk, rootPath: string, root: map<string, Node>, chapters: seq<Chapter>)
    modifies disk
    ensures disk.log == old(disk.log) + MasterWrites(rootPath, root, chapters)
  {
    var master := UpdateMasterIndex(Template(root), chapters);
    if master.Some? {
      disk.WriteFile(Join(rootPath, IndexName), master.value);
    }
  }

  /** The main block's loop over the sorted chapters, each processed as a directory. */
  method ProcessChapters(disk: Disk, chaptersPath: string, entries: map<string, Node>, chapters: seq<Chapter>, load: string -> YamlDoc)
    requires forall c :: c in chapters ==> c.pathName in entries
    modifies disk
    ensures disk.log == old(disk.log) + ChapterWrites(chaptersPath, entries, chapters, load)
  {
    ghost var log0 := disk.log;
    for i := 0 to |chapters|
      invariant disk.log == log0 + ChapterWrites(chaptersPath, entries, chapters[..i], load)
    {
      var chapter := chapters[i];
      var _ := ProcessDirectory(disk, Join(chaptersPath, chapter.pathName), entries[chapter.pathName], load);
      ChapterWritesStep(chaptersPath, entries, chapters, i, load);
      AppendAssoc(log0, ChapterWrites(chaptersPath, entries, chapters[..i], load),
        DirWrites(Join(chaptersPath, chapter.pathName), entries[chapter.pathName], load));
    }
    assert chapters[..|chapters|] == chapters;
  }

  lemma ChapterWritesStep(chaptersPath: string, entries: map<string, Node>, chapters: seq<Chapter>, i: nat, load: string -> YamlDoc)
    requires forall c :: c in chapters ==> c.pathName in entries
    requires i < |chapters|
    ensures ChapterWrites(chaptersPath, entries, chapters[..i + 1], load)
            == ChapterWrites(chaptersPath, entries, chapters[..i], load)
               + DirWrites(Join(chaptersPath, chapters[i].pathName), entries[chapters[i].pathName], load)
  {
    assert chapters[..i + 1][..i] == chapters[..i];
  }
}
