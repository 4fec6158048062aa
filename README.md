# Sphinx chapter index generator, modelled in Dafny

`source/generator.py` builds the navigation of a Sphinx documentation tree.
Below `chapters/` it looks at every folder that has a `.chapterconf` file
(a *chapter folder*). It walks each one recursively and writes an
`index.rst` into every directory it visits. Each `index.rst` holds a
heading and a `toctree` of links. Those links come from three places:

- content files (`.md` with YAML front matter, `.rst` with a
  `:content_order:` / `:content_title:` field list);
- sub-chapter folders, linked as `<name>/index`;
- the items of *container folders* (folders without a config), merged
  upward with their paths prefixed by the folder name.

Every list is stably sorted by `order`; a missing order defaults to 9999.
Finally the script puts the top-level chapter links in place of the
`<<DYNAMIC_CHAPTER_LINKS>>` marker of `index_template.rst`, and writes the
result to the root `index.rst`.

The model works on a directory tree value:

- `FileTree.Node` is either a file with readable text or unreadable content,
  or a directory mapping names to nodes.
- The files written are appended to the log of a `FileTree.Disk` object.
- The YAML loader is a function parameter.

The modules:

- `Text` and `Paths` hold the string and path primitives the script leans
  on: `str.strip`, `int` on digit strings, `str.find` and `str.replace`,
  `"\n".join`, sorting names, `posixpath.join`, `basename` and `splitext`.
- `Metadata` holds the three metadata readers. Each regular expression is
  written out as the deterministic scan it performs.
- `StableSort` holds `list.sort(key=...)`: a functional insertion sort, and
  an in-place array sort proved equal to it.
- `Walker` holds `process_directory`. `ProcessDir` and `DirWrites` are
  functions stating what a directory yields and writes. `ProcessDirectory`
  is the imperative walk (entry loop, merge loop, in-place sort, render
  loop, write), proved to return and write exactly that.
- `Master` holds the chapter selection and sort of the main block,
  `update_master_index`, and the whole run `Generate`.
- `MetadataFacts`, `WalkerFacts`, `WriteFacts` and `RenderFacts` hold the
  lemmas. `Scenario` is a worked example.

Behaviours of the code that its own messages and comments suggest
otherwise:

- A Markdown file without front matter is still linked, although the
  warning at source/generator.py:66 says "Skipping.". It gets order 9999
  and the review flag, because the metadata dictionary returned at
  source/generator.py:68 is non-empty and therefore true.
- The `if sub_item['link_path']` guard of the merge loop never drops an
  item (`WalkerFacts.LinkPathsNonEmpty`).

Some behaviours of the code that a reader might not expect:

- A container folder gets an `index.rst` of its own like any visited
  directory, because the recursive call always writes one.
- A Markdown `content_order` may be any integer, including a negative one.
  A YAML boolean is accepted too, since `bool` is an `int` in Python.
- `\s*` in `^title\s*=\s*(.*)` runs across line feeds, so a blank
  `title=` takes the next line as the title
  (`MetadataFacts.BlankConfigTitleReadsNextLine`).
- The top-level chapters keep the `os.listdir` order among equal orders.
  That order is unspecified, so it is a parameter here.

## Model

| member | source | states |
|---|---|---|
| Paths.Join | source/generator.py:143 | `os.path.join`: the result ends with the second part. Two relative parts with no slash at the seam are joined by exactly one `/`. |
| Paths.Basename | source/generator.py:230 | `os.path.basename`: the slash-free suffix after the last `/`. |
| Paths.SplitExt | source/generator.py:184 | `os.path.splitext`: the base and extension concatenate back to the name. A non-empty extension is a dot followed by no dot or slash, and comes after a non-dot character of the last component. Conversely, when the last component has a dot after a non-dot character, the name is split at its last dot. |
| Paths.BaseOfExtension | source/generator.py:197 | A name with an extension has a non-empty base, so a linked file never gets an empty link path. |
| Paths.Lower | source/generator.py:184 | `str.lower` on ASCII letters; every other character is unchanged. |
| Text.Strip | source/generator.py:40 | `str.strip`: the result has no whitespace at either end and is the input with a whitespace-only prefix and suffix removed. |
| Text.StripOfTrimmed | source/generator.py:40 | Stripping a value with no outer whitespace leaves it unchanged. |
| Text.DigitsValueOfShowNat | source/generator.py:34 | `int(group)` inverts writing a number in decimal. |
| Text.Repeat | source/generator.py:240 | `'=' * n` has length `n`, and every character is the given one. |
| Text.IndexOf | source/generator.py:287 | `pat in s` / `str.find`: the first occurrence at or after the start, or none at all. |
| Text.IndexOfFinds | source/generator.py:287 | The search finds the earliest occurrence. |
| Text.ReplaceAllAbsent | source/generator.py:289 | `str.replace` leaves a text without the pattern unchanged. |
| Text.ReplaceAllFirst | source/generator.py:289 | `str.replace` replaces the leftmost occurrence and continues right after it. |
| Text.ReplaceAllSplit | source/generator.py:289 | `str.replace` on a text split at each occurrence of the pattern, none starting inside a part or lying in the last part, gives the parts joined with the replacement. |
| Text.SplitJoinLines | source/generator.py:247 | Lines without line feeds, joined by `"\n".join`, split back into the same lines. |
| Text.JoinSplitLines | source/generator.py:273 | Splitting at line feeds and joining again gives back the text. |
| Text.SortedNames | source/generator.py:142 | `sorted(os.listdir(d))` holds every entry name exactly once. |
| Text.SortedNamesAscending | source/generator.py:142 | The names are in strictly ascending code-point order. |
| Text.LexTotal | source/generator.py:142 | Python's string order is total. |
| Text.LexAntisymmetric | source/generator.py:142 | Python's string order is antisymmetric. |
| Text.LexTransitive | source/generator.py:142 | Python's string order is transitive. |
| StableSort.SortByKey | source/generator.py:206 | `items.sort(key=order)` gives a result sorted by key that is a permutation of the input. |
| StableSort.SortByKeyStable | source/generator.py:206 | For every key, the items with that key keep their input order (stability). |
| StableSort.StableSortUnique | source/generator.py:206 | Two key-sorted lists with the same per-key runs are equal, so the stable sort is unique. |
| StableSort.SortInPlace | source/generator.py:206 | The in-place array sort leaves exactly the functional stable sort of the old contents. |
| Metadata.MatchAt | source/generator.py:25-26 | A match of `^key\s*=\s*(...)` at a position begins with the key. A `(\d+)` group is a non-empty digit run; a `(.*)` group holds no line feed. |
| MetadataFacts.MatchAtLayout | source/generator.py:25-26 | A key followed by the longest whitespace run, then (for `=` patterns) `=` and the longest whitespace run, then the longest digit run (non-empty) or rest of the line, is a match whose group is that run. |
| MetadataFacts.MatchAtFound | source/generator.py:25-26 | Conversely, every match is laid out that way, and its group is that run. |
| MetadataFacts.LongestRunIsSkip | source/generator.py:25-26 | A greedy `\s*`, `\d+` or `.*` consumes exactly the longest run of its characters. |
| Metadata.SearchFromSpec | source/generator.py:32-40 | From any position on, the search returns the group of the first line start where the pattern matches, and nothing only when none matches. |
| Metadata.SearchSpec | source/generator.py:32-40 | `pattern.search` under `re.MULTILINE` returns the group at the first line start where the pattern matches, and nothing only when no line start matches. |
| Metadata.ParseChapterConfig | source/generator.py:24-43 | No `order` match gives 9999. A title exists exactly when some line starts a `title` match, and it is a single line. |
| Metadata.ReadChapterConfig | source/generator.py:16-48 | `None` exactly when `.chapterconf` is absent, not a file, or unreadable; otherwise the parse of its text. |
| Metadata.Head | source/generator.py:105 | `f.read(1000)` is the first `min(1000, len)` characters. |
| Metadata.ExtractRst | source/generator.py:91-125 | An unreadable file gives the invalid default record. An invalid record has order 9999. The order is never negative. |
| Metadata.ExtractRstSpec | source/generator.py:99-118 | `valid` holds exactly when some line of the first 1000 characters starts a `:content_order:` match. A title is only taken from a `:content_title:` match there. |
| Metadata.FrontMatterFrom | source/generator.py:63 | The backtracking of the greedy `\s*` before the line feed: the block found is a real match of `---\s*\n(.*?)\n---` whose line feed is the latest one below the bound that opens a block, and nothing is found only when no line feed below the bound opens one. |
| Metadata.FrontMatter | source/generator.py:63 | `re.match` of the front-matter block: the block found is the match with the latest line feed, nothing is found exactly when no block matches, and a text not starting with `---` has none. |
| Metadata.FrontMatterIs | source/generator.py:63 | Conversely, the block whose line feed is the latest that opens one is exactly what `re.match` returns. |
| Metadata.ExtractMd | source/generator.py:50-89 | No block, an unreadable file or YAML that is not a mapping gives `{9999, None, valid=False}`. `valid` holds exactly when the loaded mapping has an integer `content_order`, which is then the order; otherwise the order is 9999. A title exists exactly when `content_title` is a string, and it is that string stripped. |
| MetadataFacts.SearchFindsFirst | source/generator.py:32-34 | The first line-anchored match is what `search` returns. |
| MetadataFacts.ConfigOrderFirstMatch | source/generator.py:32-34 | The config order is the number at the first line-anchored `order =` field. |
| MetadataFacts.ConfigTitleFirstMatch | source/generator.py:38-40 | The config title is the stripped rest of the line of the first line-anchored `title =` field. |
| MetadataFacts.RstOrderFirstMatch | source/generator.py:108-110 | The `.rst` order is the number of the first `:content_order:` field within the head, and the record is valid. |
| MetadataFacts.RstTitleFirstMatch | source/generator.py:116-118 | The `.rst` title is the stripped rest of the line of the first `:content_title:` field within the head. |
| MetadataFacts.MatchesWrittenField | source/generator.py:25-26 | A field written as key, separator and value, ending its line, matches with exactly that value. |
| MetadataFacts.FieldOnFirstLine | source/generator.py:32 | Such a field on the first line is what `search` returns. |
| MetadataFacts.ChapterConfigRoundTrip | source/generator.py:24-40 | A config written as `order=<n>` then `title=<t>` reads back as `n` and `t`. |
| MetadataFacts.BlankConfigTitleReadsNextLine | source/generator.py:26 | Because `\s*` crosses the line feed, a blank `title=` followed by a line reads that line as the title. |
| MetadataFacts.RstOrderRoundTrip | source/generator.py:99-113 | An `.rst` file opening with `:content_order: <n>` reads back as order `n` and valid. |
| MetadataFacts.RstReadsOnlyHead | source/generator.py:105 | Nothing after the first 1000 characters changes the `.rst` metadata. |
| MetadataFacts.FrontMatterOf | source/generator.py:63 | `---\n<g>\n---...` yields the block `g` when `g` has no `\n---`. |
| MetadataFacts.MarkdownOrderRoundTrip | source/generator.py:63-77 | A block whose YAML maps `content_order` to the integer `n` gives order `n` and valid. |
| MetadataFacts.MarkdownWithoutFrontMatter | source/generator.py:63-68 | A Markdown text not starting with `-` reads as `{9999, None, valid=False}`. |
| MetadataFacts.ExtractMdOfBlock | source/generator.py:63-83 | With the block `re.match` finds, the record is valid exactly when its YAML maps `content_order` to an integer, which is the order, and the title is its stripped `content_title` string exactly when there is one. |
| MetadataFacts.ExtractMdNoBlock | source/generator.py:63-68 | A Markdown text in which no block matches reads as `{9999, None, valid=False}`. |
| Walker.TitleOr | source/generator.py:164 | `title or fallback`: a present, non-empty title wins; a missing or empty one gives the fallback. |
| Walker.ReadContentMetadata | source/generator.py:184-190 | A reader is chosen exactly for the `.md` and `.rst` extensions, in any letter case: `.md` reads the front matter, `.rst` the field list. |
| Walker.FileItem | source/generator.py:182-203 | A file yields an item exactly when it is not `index.rst` and has a `.md`/`.rst` extension. The link path is the non-empty base name. The title is the metadata title when non-empty, else the base name. Order comes from the metadata, and `issues` is `not valid`. |
| Walker.VisitFile | source/generator.py:182-203 | A file entry adds the one item `FileItem` gives for it, or nothing. |
| Walker.EntryLines | source/generator.py:211-225 | One toctree line per item, in item order. |
| Walker.ProcessDirectory | source/generator.py:128-258 | The walk returns `ProcessDir` (nothing for a non-directory) and appends exactly `DirWrites` to the disk log. |
| Walker.VisitEntries | source/generator.py:142-203 | The entry loop visits the sorted names. It collects `Collect` and writes every subdirectory's files in name order. |
| Walker.VisitEntry | source/generator.py:143-203 | One entry adds `EntryItems` and writes what its subdirectory writes. |
| Walker.MergeContainer | source/generator.py:174-180 | The merge loop computes `Prefixed`. |
| Walker.SortItems | source/generator.py:206 | Sorting the collected list through an array is the stable sort by order. |
| Walker.RenderEntries | source/generator.py:211-225 | The rendering loop computes one `EntryLine` per item. |
| Walker.IndexTitle | source/generator.py:229-234 | The heading is the config title when the `.chapterconf` is readable and its title is non-empty; otherwise it is the folder's base name. |
| WalkerFacts.ProcessDirSortedStable | source/generator.py:142-206 | The returned items are sorted by order and are a permutation of the collected ones. Equal orders keep the sorted-name collection order. |
| WalkerFacts.PrefixedKeepsAll | source/generator.py:174-180 | With non-empty link paths, the merge keeps every item in order, with only `link_path` changed to `name/link_path`. |
| WalkerFacts.CollectFromEntry | source/generator.py:142-203 | Every collected item was contributed by one of the visited entries. |
| WalkerFacts.CollectHasEntry | source/generator.py:142-203 | Every contribution of a visited entry is collected. |
| WalkerFacts.ItemsComeFromEntries | source/generator.py:142-206 | An item is returned exactly when some entry of the directory contributes it. |
| WalkerFacts.LinkPathsNonEmpty | source/generator.py:178 | Every returned item has a non-empty link path, so the merge guard never drops an item. |
| WalkerFacts.EntryLinkPathsNonEmpty | source/generator.py:154-203 | Every item an entry contributes has a non-empty link path. |
| WalkerFacts.ContainerMerged | source/generator.py:169-180 | A folder without config contributes exactly its own returned items, in their order, each rebased by the folder name. |
| WalkerFacts.ChapterFolderLinked | source/generator.py:154-168 | A folder with a config contributes the item `{config order, config title or name, "<name>/index"}`. |
| WalkerFacts.HeadingFromConfig | source/generator.py:229-234 | A folder whose `.chapterconf` reads `order=<n>` then `title=<t>` is headed `t` in its own index. |
| WalkerFacts.HeadingWithoutTitle | source/generator.py:229-234 | A folder without a readable `.chapterconf`, or whose config has no `title` field, is headed by its base name. |
| WalkerFacts.ContainerItemsSurface | source/generator.py:169-180 | Every item of a container folder surfaces in its parent, rebased. |
| WalkerFacts.ContentFileLinked | source/generator.py:182-203 | Every `.md`/`.rst` file other than `index.rst` is linked. |
| WalkerFacts.MarkdownWithoutFrontMatterLinked | source/generator.py:65-68 | A Markdown file without front matter is still linked, with order 9999, its base name as title and path, and the review flag. |
| WriteFacts.SubdirWritesBlock | source/generator.py:158 | The files of each subdirectory are written as one contiguous block of the entry loop's writes. |
| WriteFacts.ChildWritesBeforeOwn | source/generator.py:250-252 | A directory's own `index.rst` is its last write, and every subdirectory's writes come before it (post-order). |
| WriteFacts.EveryDirectoryIndexed | source/generator.py:236-252 | Every directory reachable from the start gets its `index.rst`, with the text computed for it. |
| WriteFacts.OnlyIndexesWritten | source/generator.py:236-252 | Every write is the `index.rst` of some directory reachable from the start. |
| RenderFacts.IndexTextLines | source/generator.py:229-248 | Line by line, an index file reads: the title, `len(title)` `=`, a blank line, `.. toctree::`, `   :maxdepth: 2`, `   :caption: <title> Content:`, a blank line, one line per item, and a final line feed. |
| RenderFacts.IndexTextJoined | source/generator.py:240-248 | The written text is exactly those lines joined by line feeds. |
| Scenario.IntroConfig | source/generator.py:24-40 | The config `order=1` / `title=Introduction` reads as order 1 and the title `Introduction`. |
| Scenario.PageItem | source/generator.py:182-203 | `a.md` with front matter `content_order: 1` and no title becomes the item `{1, "a", "a", issues=False}`. |
| Scenario.IntroIndex | source/generator.py:229-234 | That folder's index is headed `Introduction` and its only item is the one for `a.md`. |
| Scenario.IntroLinkLine | source/generator.py:220-225 | That item is listed by the bare path `   a`. |
| Scenario.TwoChaptersMaster | source/generator.py:279-289 | Two chapters listed with the larger order first are sorted smaller order first (as at line 337), and a template with one placeholder gets `"\n"`, one `   chapters/<name>/index` line per chapter in that order, and `"\n"` in its place. |
| Master.ChapterOf | source/generator.py:327-334 | Only a directory with a config gives a chapter. The chapter has the config order, the config title when non-empty or else the folder name, and the folder name as path. |
| Master.SelectedMembers | source/generator.py:323-334 | A chapter is selected exactly when it is the record of a listed subdirectory with a config. |
| Master.TopLevelChaptersSpec | source/generator.py:323-337 | The top-level chapters are exactly the configured subdirectories. They are sorted by order, a permutation of the selection, and keep listing order among equal orders. |
| Master.ConfiguredFolderIsChapter | source/generator.py:323-337 | Every configured subdirectory is a top-level chapter with its config's order. |
| Master.UpdateMasterIndex | source/generator.py:279-292 | A new master text exists exactly when the template is readable and contains the placeholder. |
| Master.NoPlaceholderNoMaster | source/generator.py:287-292 | Without a readable template with the placeholder, the master index is not written. |
| Master.OnePlaceholder | source/generator.py:287-289 | With one placeholder, the template is kept around it and `"\n" + links + "\n"` takes its place. |
| Master.EveryPlaceholder | source/generator.py:287-289 | Every placeholder is replaced: a template split at each of its placeholders becomes its parts joined with `"\n" + links + "\n"`. |
| Master.LinkBlockLines | source/generator.py:273-277 | The links are one line `   chapters/<name>/index` per chapter, in chapter order, and split back into exactly those lines. |
| Master.ChapterIndexWritten | source/generator.py:340-342 | The chapter loop writes the `index.rst` of every chapter it processes. |
| Master.EveryChapterIndexed | source/generator.py:340-342 | Every top-level chapter gets its own `index.rst` during a run. |
| Master.MasterWrittenLast | source/generator.py:345 | When the master index is written, it is the last write of the run, with the substituted template. |
| Master.NoChaptersRootNoWrites | source/generator.py:316-318 | Without a `chapters` directory nothing is written. |
| Master.SelectChapters | source/generator.py:320-334 | The selection loop collects the chapter of every configured subdirectory, in listing order. |
| Master.SortChapters | source/generator.py:337 | The chapters are stably sorted by order, in place. |
| Master.ProcessChapters | source/generator.py:340-342 | The chapter loop writes the files of each chapter in turn. |
| Master.UpdateMaster | source/generator.py:262-301 | The master index is written once with the substituted template, or not at all. |
| Master.Generate | source/generator.py:311-345 | A run succeeds exactly when `chapters/` is a directory, and writes exactly `RunWrites`: every chapter's files, then the master index. |
| FileTree.Disk.WriteFile | source/generator.py:250-252 | Writing a file appends it to the log of writes. |

## Left out

- Printing is left out: the warnings, the `REVIEW REQUIRED` message, the progress lines and `os.path.relpath` serve logging only. Hence `issues_found` and the `chapter_relative_path` argument, which feed only messages, are not modelled.
- `argparse` is not modelled: the root path is a parameter. `exit(1)` on a missing `chapters/` becomes `Generate` returning `false` with nothing written.
- The file system is a tree value read once. Writes go to a log and are never read back. This matches the code, because it only writes `index.rst` files, which it never reads as content, and the root `index.rst`. A write that fails with an exception is not modelled.
- `open(...).read()` is modelled by the text after Python's universal-newline translation. A file that cannot be opened or decoded is `Unreadable`. The readers catch that. For the master template, the model only knows "no template". A template that fails to decode as UTF-8 raises an error outside `except IOError`, which the model does not distinguish.
- `yaml.safe_load` is a function parameter returning a mapping, a falsy document, another value or an error. A non-mapping or an error makes the record invalid, as the caught exception does.
- `\d` in the patterns is ASCII digits only. Python also matches other Unicode decimal digits there. `\s` and `str.strip` use the Unicode whitespace set.
- `os.path.isdir` on symbolic links, special files and permission errors are not modelled.
- `os.listdir` order for the chapters root is a parameter that lists every entry once.
- `source/_static/js/furo-toc-persistence.js` is not part of this model. It is browser code with no index logic.
- Text.SortedNames: its own contract states only which names it holds. The ascending order is `Text.SortedNamesAscending`.
- Metadata.SearchFrom: its own contract states only the shape of the captured group. The first-match property is `Metadata.SearchFromSpec`.
- Metadata.Search: its own contract states only the shape of the captured group. The first-match property is `Metadata.SearchSpec`.
- Metadata.ParseChapterConfig: its own contract does not give the order's value when a match exists. That value is `MetadataFacts.ConfigOrderFirstMatch`.
- Metadata.ExtractRst: its own contract states only the defaults. What `valid`, `order` and `title` are is stated by `Metadata.ExtractRstSpec` and the `MetadataFacts.Rst...FirstMatch` lemmas.
- Metadata.MatchAt: its own contract states only the shape of the group. Where the group lies is `MetadataFacts.MatchAtLayout` and `MetadataFacts.MatchAtFound`.
- Metadata.ReadChapterConfig: Python 3.11 and later refuse `int()` of a string of more than 4300 digits. That `ValueError` is caught, so such a config reads as `None` and its folder is merged as a container. The model reads any digit run as its full value.
- Metadata.ExtractRst: for the same reason an `.rst` order of more than 4300 digits makes Python 3.11 and later flag the file invalid, with order 9999 and no title. The model reads the full value.
- Walker.Prefixed: its own contract states only a length bound. What the merge keeps is `WalkerFacts.PrefixedKeepsAll`.
- Master.Selected: its own contract states only a length bound. Membership is `Master.SelectedMembers`.
