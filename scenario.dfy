/**
 * Worked examples: a chapter folder whose `.chapterconf` reads
 * `order=1` and `title=Introduction` and which holds one Markdown file
 * `a.md` with front matter `content_order: 1` and no title; and a master
 * template filled with two chapters listed out of order.
 */
module Scenario {
  import opened Wrappers
  import opened Text
  import opened Paths
  import opened FileTree
  import opened Metadata
  import opened MetadataFacts
  import opened StableSort
  import opened Walker
  import opened WalkerFacts
  import opened Master

  const Config := "order=1\ntitle=Introduction"
  const FrontMatterText := "content_order: 1"
  const Page := "---\n" + FrontMatterText + "\n---" + "\n"

  function Intro(): map<string, Node> {
    map[ConfigName := File(Text(Config)), "a.md" := File(Text(Page))]
  }

  /** The folder's config gives order 1 and the title `Introduction`. */
  lemma IntroConfig()
    ensures ReadChapterConfig(Intro()) == Some(ChapterConfig(1, Some("Introduction")))
  {
    IntroFiles();
    ConfigWritten();
    ChapterConfigRoundTrip(1, "Introduction", "");
  }

  /** The two entries of the folder, told apart by their lengths. */
  lemma IntroFiles()
    ensures Intro().Keys == {ConfigName, "a.md"} && ConfigName != "a.md"
    ensures Intro()[ConfigName] == File(Text(Config)) && Intro()["a.md"] == File(Text(Page))
  {
    assert |ConfigName| == 12 && |"a.md"| == 4;
  }

  lemma ConfigWritten()
    ensures Config == "order=" + ShowNat(1) + "\ntitle=" + "Introduction" + ""
  {
    ShowOne();
    ConfigLiteral();
  }

  lemma ConfigLiteral()
    ensures Config == "order=" + "1" + "\ntitle=" + "Introduction" + ""
  {
    var s := "order=" + "1" + "\ntitle=" + "Introduction";
    assert s + "" == s;
  }

  lemma ShowOne()
    ensures ShowNat(1) == "1"
  {
  }

  /** `a.md` is linked by its base name, in order 1, with no review flag. */
  lemma PageItem(load: string -> YamlDoc)
    requires load(FrontMatterText) == Mapping(map["content_order" := YInt(1)])
    ensures FileItem("a.md", Text(Page), load) == Some(Item(1, "a", "a", false))
  {
    FrontMatterOneLine();
    MarkdownOrderRoundTrip(FrontMatterText, "\n", load, 1);
    FrontMatterOf(FrontMatterText, "\n");
    PageName();
  }

  lemma FrontMatterOneLine()
    ensures FrontMatterText != [] && !IsSpace(FrontMatterText[0]) && !Contains(FrontMatterText, "\n---")
  {
    forall i | 0 <= i <= |FrontMatterText| ensures !Occurs(FrontMatterText, i, "\n---") {
      if i + 4 <= |FrontMatterText| {
        assert FrontMatterText[i] != '\n';
      }
    }
  }

  lemma PageName()
    ensures SplitExt("a.md") == ("a", ".md") && Lower(".md") == ".md" && "a.md" != IndexName
  {
    assert "a.md" == "a" + ".md";
    SplitSimpleName("a", ".md");
  }

  /** The config file itself has no extension, so it is not content. */
  lemma ConfigNotContent(load: string -> YamlDoc)
    ensures FileItem(ConfigName, Text(Config), load).None?
  {
    HiddenNameHasNoExtension(ConfigName);
  }

  /** The generated index of the folder is headed `Introduction` and holds the one item of `a.md`. */
  lemma IntroIndex(path: string, load: string -> YamlDoc)
    requires load(FrontMatterText) == Mapping(map["content_order" := YInt(1)])
    ensures IndexTitle(path, Intro()) == "Introduction"
    ensures ProcessDir(path, Dir(Intro()), load) == [Item(1, "a", "a", false)]
  {
    IntroTitle(path);
    IntroItems(path, load);
  }

  /** The only toctree line of that index is the bare path `a`. */
  lemma IntroLinkLine()
    ensures EntryLines([Item(1, "a", "a", false)]) == ["   a"]
  {
    BarePathLine(Item(1, "a", "a", false));
    assert "   " + "a" == "   a";
  }

  lemma IntroTitle(path: string)
    ensures IndexTitle(path, Intro()) == "Introduction"
  {
    IntroConfig();
  }

  lemma IntroItems(path: string, load: string -> YamlDoc)
    requires load(FrontMatterText) == Mapping(map["content_order" := YInt(1)])
    ensures ProcessDir(path, Dir(Intro()), load) == [Item(1, "a", "a", false)]
  {
    IntroCollect(path, load);
    assert SortByKey([Item(1, "a", "a", false)], OrderOf) == [Item(1, "a", "a", false)];
  }

  lemma IntroEntries(path: string, load: string -> YamlDoc)
    requires load(FrontMatterText) == Mapping(map["content_order" := YInt(1)])
    ensures EntryItems(path, ConfigName, Intro()[ConfigName], load) == []
    ensures EntryItems(path, "a.md", Intro()["a.md"], load) == [Item(1, "a", "a", false)]
  {
    PageItem(load);
    ConfigNotContent(load);
  }

  lemma IntroCollect(path: string, load: string -> YamlDoc)
    requires load(FrontMatterText) == Mapping(map["content_order" := YInt(1)])
    ensures Collect(path, Intro(), SortedNames(Intro().Keys), load) == [Item(1, "a", "a", false)]
  {
    var m := Intro();
    IntroFiles();
    IntroEntries(path, load);
    SortedPair(ConfigName, "a.md");
    CollectOfTwo(path, m, SortedNames(m.Keys), load, Item(1, "a", "a", false));
  }

  /** Two distinct names are listed in one order or the other. */
  lemma SortedPair(a: string, b: string)
    requires a != b
    ensures |SortedNames({a, b})| == 2
    ensures SortedNames({a, b}) == [a, b] || SortedNames({a, b}) == [b, a]
  {
    var r := SortedNames({a, b});
    SortedNamesAscending({a, b});
    assert |{a, b}| == 2;
    assert r[0] in {a, b} && r[1] in {a, b} && r[0] != r[1];
    assert r == [r[0], r[1]];
  }

  /** Two entries, one of which adds nothing, collect the other's item. */
  lemma CollectOfTwo(path: string, m: map<string, Node>, names: seq<string>, load: string -> YamlDoc, it: Item)
    requires |names| == 2 && forall n :: n in names ==> n in m
    requires (EntryItems(path, names[0], m[names[0]], load) == [] && EntryItems(path, names[1], m[names[1]], load) == [it])
          || (EntryItems(path, names[0], m[names[0]], load) == [it] && EntryItems(path, names[1], m[names[1]], load) == [])
    ensures Collect(path, m, names, load) == [it]
  {
    CollectTwo(path, m, names, load);
    var e0 := EntryItems(path, names[0], m[names[0]], load);
    var e1 := EntryItems(path, names[1], m[names[1]], load);
    assert e0 == [] ==> e0 + e1 == e1;
    assert e1 == [] ==> e0 + e1 == e0;
  }

  /** Two entries collect the items of the first, then those of the second. */
  lemma CollectTwo(path: string, m: map<string, Node>, names: seq<string>, load: string -> YamlDoc)
    requires |names| == 2 && forall n :: n in names ==> n in m
    ensures Collect(path, m, names, load)
         == EntryItems(path, names[0], m[names[0]], load) + EntryItems(path, names[1], m[names[1]], load)
  {
    CollectStep(path, m, names, load);
    assert names[..1] == [names[0]];
    CollectSingle(path, m, names[0], load);
  }

  lemma CollectSingle(path: string, m: map<string, Node>, name: string, load: string -> YamlDoc)
    requires name in m
    ensures Collect(path, m, [name], load) == EntryItems(path, name, m[name], load)
  {
    CollectStep(path, m, [name], load);
    assert [name][..0] == [];
  }

  /** An item whose title is its link path is listed by the bare path. */
  lemma BarePathLine(it: Item)
    requires it.title == it.linkPath
    ensures EntryLines([it]) == ["   " + it.linkPath]
  {
  }

  /** A name with one dot, not in front, splits at that dot. */
  lemma SplitSimpleName(b: string, e: string)
    requires b != [] && forall k :: 0 <= k < |b| ==> b[k] != '.' && b[k] != '/'
    requires e != [] && e[0] == '.' && forall k :: 1 <= k < |e| ==> e[k] != '.' && e[k] != '/'
    ensures SplitExt(b + e) == (b, e)
  {
    var p := b + e;
    assert RFind(p, '/') == -1 by {
      forall k | 0 <= k < |p| ensures p[k] != '/' {
        if k < |b| { assert p[k] == b[k]; } else { assert p[k] == e[k - |b|]; }
      }
    }
    assert RFind(p, '.') == |b| by {
      assert p[|b|] == '.';
      forall k | 0 <= k < |b| ensures p[k] != '.' { assert p[k] == b[k]; }
    }
    assert HasNonDot(p, 0, |b|) by { assert p[0] == b[0]; }
    assert p[..|b|] == b && p[|b|..] == e;
  }

  /** A name whose only dot is its first character has no extension. */
  lemma HiddenNameHasNoExtension(p: string)
    requires p != [] && p[0] == '.' && forall k :: 1 <= k < |p| ==> p[k] != '.' && p[k] != '/'
    ensures SplitExt(p).1 == ""
  {
    assert RFind(p, '.') == 0;
  }

  /**
   * Two top-level chapters listed with the larger order first: the sort puts
   * the smaller order first, and a template with one placeholder gets one
   * link line per chapter in that order.
   */
  lemma TwoChaptersMaster(c1: Chapter, c2: Chapter, pre: string, post: string)
    requires c2.order < c1.order
    requires forall i :: 0 <= i < |pre| ==> !Occurs(pre + Placeholder + post, i, Placeholder)
    requires !Contains(post, Placeholder)
    ensures SortByKey([c1, c2], ChapterOrder) == [c2, c1]
    ensures UpdateMasterIndex(Some(pre + Placeholder + post), [c2, c1])
         == Some(pre + "\n" + MasterLine(c2) + "\n" + MasterLine(c1) + "\n" + post)
  {
    SortTwo(c1, c2);
    OnePlaceholder(pre, post, [c2, c1]);
    TwoLinks(c2, c1);
    var a, b := MasterLine(c2), MasterLine(c1);
    assert pre + ("\n" + a + "\n" + b + "\n") + post == pre + "\n" + a + "\n" + b + "\n" + post;
  }

  lemma SortTwo(c1: Chapter, c2: Chapter)
    requires c2.order < c1.order
    ensures SortByKey([c1, c2], ChapterOrder) == [c2, c1]
  {
    assert [c1, c2][1..] == [c2];
    assert [c2][1..] == [];
    assert SortByKey([c2], ChapterOrder) == [c2];
  }

  lemma TwoLinks(a: Chapter, b: Chapter)
    ensures LinkBlock([a, b]) == "\n" + MasterLine(a) + "\n" + MasterLine(b) + "\n"
  {
    var links := MasterLinks([a, b]);
    assert links == [MasterLine(a), MasterLine(b)];
    assert links[1..] == [MasterLine(b)];
    assert JoinLines(links[1..]) == MasterLine(b);
    assert JoinLines(links) == MasterLine(a) + "\n" + MasterLine(b);
  }
}
