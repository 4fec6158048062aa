/** The text `process_directory` writes into an `index.rst`, line by line. */
module RenderFacts {
  import opened Text
  import opened Walker

  /** The first seven lines of an index file: the title, its underline and the toctree options. */
  function HeadLines(title: string): seq<string> {
    [title, Repeat('=', |title|), "", ".. toctree::", "   :maxdepth: 2", "   :caption: " + title + " Content:", ""]
  }

  /** The lines of the toctree body: the entry lines, or one empty line when there are none, then the closing line feed. */
  function BodyLines(items: seq<Item>): seq<string> {
    (if items == [] then [""] else EntryLines(items)) + [""]
  }

  /**
   * An index file reads, line by line: the title, an underline of as many
   * `=` as the title has characters, a blank line, the toctree directive with
   * its `maxdepth` and `caption` options, a blank line, one line per item,
   * and a final line feed.
   */
  lemma IndexTextLines(title: string, items: seq<Item>)
    requires NoNewline(title)
    requires forall it :: it in items ==> NoNewline(it.title) && NoNewline(it.linkPath)
    ensures SplitLines(IndexText(title, items)) == HeadLines(title) + BodyLines(items)
  {
    var head := HeadLines(title);
    var lines := head + BodyLines(items);
    IndexTextJoined(title, items);
    forall i | 0 <= i < |lines| ensures NoNewline(lines[i]) {
      if i < |head| {
        HeadNoNewline(title, i);
      } else {
        BodyNoNewline(items, i - |head|);
      }
    }
    SplitJoinLines(lines);
  }

  lemma HeadNoNewline(title: string, i: nat)
    requires NoNewline(title) && i < 7
    ensures NoNewline(HeadLines(title)[i])
  {
    if i == 3 {
      assert ".. toctree::" == ['.', '.', ' ', 't', 'o', 'c', 't', 'r', 'e', 'e', ':', ':'];
    } else if i == 4 {
      assert "   :maxdepth: 2" == [' ', ' ', ' ', ':', 'm', 'a', 'x', 'd', 'e', 'p', 't', 'h', ':', ' ', '2'];
    } else if i == 5 {
      assert NoNewline("   :caption: ");
      assert NoNewline(" Content:");
      NoNewlineConcat("   :caption: ", title);
      NoNewlineConcat("   :caption: " + title, " Content:");
    }
  }

  lemma BodyNoNewline(items: seq<Item>, i: nat)
    requires forall it :: it in items ==> NoNewline(it.title) && NoNewline(it.linkPath)
    requires i < |BodyLines(items)|
    ensures NoNewline(BodyLines(items)[i])
  {
    if items != [] && i < |items| {
      var it := items[i];
      assert BodyLines(items)[i] == EntryLine(it);
      if it.title != "" && it.title != it.linkPath {
        NoNewlineConcat("   ", it.title);
        NoNewlineConcat("   " + it.title, " <");
        NoNewlineConcat("   " + it.title + " <", it.linkPath);
        NoNewlineConcat("   " + it.title + " <" + it.linkPath, ">");
      } else {
        NoNewlineConcat("   ", it.linkPath);
      }
    }
  }

  /** Seven lines joined. */
  lemma JoinSeven(a: string, b: string, c: string, d: string, e: string, f: string, g: string)
    ensures JoinLines([a, b, c, d, e, f, g]) == a + "\n" + b + "\n" + c + "\n" + d + "\n" + e + "\n" + f + "\n" + g
  {
    assert JoinLines([f, g]) == f + "\n" + g by {
      assert [f, g][1..] == [g];
      assert JoinWith("\n", [g]) == g;
      assert JoinWith("\n", [f, g]) == f + "\n" + JoinWith("\n", [g]);
    }
    assert JoinLines([e, f, g]) == e + "\n" + JoinLines([f, g]) by { assert [e, f, g][1..] == [f, g]; }
    assert JoinLines([d, e, f, g]) == d + "\n" + JoinLines([e, f, g]) by { assert [d, e, f, g][1..] == [e, f, g]; }
    assert JoinLines([c, d, e, f, g]) == c + "\n" + JoinLines([d, e, f, g]) by { assert [c, d, e, f, g][1..] == [d, e, f, g]; }
    assert JoinLines([b, c, d, e, f, g]) == b + "\n" + JoinLines([c, d, e, f, g]) by { assert [b, c, d, e, f, g][1..] == [c, d, e, f, g]; }
    assert JoinLines([a, b, c, d, e, f, g]) == a + "\n" + JoinLines([b, c, d, e, f, g]) by { assert [a, b, c, d, e, f, g][1..] == [b, c, d, e, f, g]; }
  }

  /** The index text is its lines joined with line feeds. */
  lemma IndexTextJoined(title: string, items: seq<Item>)
    ensures IndexText(title, items) == JoinLines(HeadLines(title) + BodyLines(items))
  {
    var entries := EntryLines(items);
    BodyJoined(items);
    HeaderAndToctree(title, entries);
    JoinLinesPrefix(HeadLines(title), BodyLines(items));
    AppendAssoc(JoinLines(HeadLines(title)) + "\n", JoinLines(entries), "\n");
  }

  /** The body lines join to the entry lines and a closing line feed. */
  lemma BodyJoined(items: seq<Item>)
    ensures JoinLines(BodyLines(items)) == JoinLines(EntryLines(items)) + "\n"
  {
    var middle := if items == [] then [""] else EntryLines(items);
    assert JoinLines(middle) == JoinLines(EntryLines(items));
    JoinLinesSnoc(middle, "");
  }

  /** The header and the toctree options are the head lines joined. */
  lemma HeaderAndToctree(title: string, entries: seq<string>)
    ensures IndexHeader(title) + Toctree(title, entries) == JoinLines(HeadLines(title)) + "\n" + JoinLines(entries) + "\n"
  {
    var u := Repeat('=', |title|);
    var a, b, c := ".. toctree::", "   :maxdepth: 2", "   :caption: " + title + " Content:";
    JoinSeven(title, u, "", a, b, c, "");
    HeaderLines(title);
    ToctreeLines(title, entries);
    Regroup(title, u, a, b, c, JoinLines(entries));
  }

  /** The header and the toctree, regrouped around the line feed that ends the head lines. */
  lemma Regroup(t: string, u: string, a: string, b: string, c: string, body: string)
    ensures (t + "\n" + u + "\n" + "" + "\n") + (a + "\n" + b + "\n" + c + "\n" + "" + "\n" + body + "\n")
         == (t + "\n" + u + "\n" + "" + "\n" + a + "\n" + b + "\n" + c + "\n" + "") + "\n" + body + "\n"
  {
  }

  lemma HeaderLines(title: string)
    ensures IndexHeader(title) == title + "\n" + Repeat('=', |title|) + "\n" + "" + "\n"
  {
    BlankLineAfter(title + "\n" + Repeat('=', |title|));
  }

  lemma BlankLineAfter(s: string)
    ensures s + "\n\n" == s + "\n" + "" + "\n"
  {
    assert "\n" + "" + "\n" == "\n\n";
  }

  lemma ToctreeLines(title: string, entries: seq<string>)
    ensures Toctree(title, entries)
            == ".. toctree::" + "\n" + "   :maxdepth: 2" + "\n" + ("   :caption: " + title + " Content:") + "\n" + "" + "\n" + JoinLines(entries) + "\n"
  {
  }

  /** Joining two non-empty runs of lines puts one line feed between them. */
  lemma {:induction false} JoinLinesPrefix(a: seq<string>, b: seq<string>)
    requires a != [] && b != []
    ensures JoinLines(a + b) == JoinLines(a) + "\n" + JoinLines(b)
  {
    if |a| > 1 {
      assert (a + b)[1..] == a[1..] + b;
      JoinLinesPrefix(a[1..], b);
    } else {
      assert (a + b)[1..] == b;
    }
  }
}
