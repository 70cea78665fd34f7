/**
 * `jsonDirectory`: the JSON text describing a flash directory, built in a
 * do-while loop over `openNextFile()` that puts a comma before every pass but
 * the first, including the last pass, which finds no more files. Every
 * directory with entries therefore ends its list with a comma.
 *
 * The directory is an abstract tree; a file's size is the opaque text that
 * `readableSize` produced for it.
 */
module JsonDirectory {

  /** A flash filesystem entry as seen through `File`. */
  datatype Entry =
    | File(name: string, sizeText: string)
    | Directory(name: string, entries: seq<Entry>)

  /** What `openNextFile()` yields, in order: a plain file yields nothing. */
  function Children(e: Entry): seq<Entry>
  {
    if e.Directory? then e.entries else []
  }

  /** The text up to and including the opening bracket of the content list. */
  function Head(name: string): string
  {
    "{\"directory\":\"" + name + "\", \"content\":["
  }

  function FileJson(name: string, sizeText: string): string
  {
    "{\"filename\":\"" + name + "\", \"size\":\"" + sizeText + "\"}"
  }

  /** The text `jsonDirectory(dir)` returns. */
  function DirJson(dir: Entry): (s: string)
    decreases dir, 1
  {
    Head(dir.name) + (if dir.Directory? then ItemsJson(dir.entries) else "") + "]}"
  }

  /** The text of one entry of a listing. */
  function EntryJson(e: Entry): string
    decreases e, 2
  {
    if e.Directory? then DirJson(e) else FileJson(e.name, e.sizeText)
  }

  /** The entries of a listing, each followed by a comma. */
  function ItemsJson(es: seq<Entry>): string
    decreases es, 0
  {
    if es == [] then "" else EntryJson(es[0]) + "," + ItemsJson(es[1..])
  }

  lemma {:induction false} ItemsJsonSnoc(es: seq<Entry>, e: Entry)
    ensures ItemsJson(es + [e]) == ItemsJson(es) + EntryJson(e) + ","
    decreases |es|
  {
    if es == [] {
      assert es + [e] == [e];
    } else {
      assert (es + [e])[0] == es[0];
      assert (es + [e])[1..] == es[1..] + [e];
      ItemsJsonSnoc(es[1..], e);
      var first := EntryJson(es[0]) + ",";
      assert ItemsJson(es + [e]) == first + (ItemsJson(es[1..]) + EntryJson(e) + ",");
      assert ItemsJson(es) == first + ItemsJson(es[1..]);
      Regroup(first, ItemsJson(es[1..]), EntryJson(e));
    }
  }

  /** A listing of at least one entry ends with a comma. */
  lemma {:induction false} ItemsJsonEndsWithComma(es: seq<Entry>)
    requires es != []
    ensures var t := ItemsJson(es); |t| > 0 && t[|t| - 1] == ','
  {
    assert es == es[..|es| - 1] + [es[|es| - 1]];
    ItemsJsonSnoc(es[..|es| - 1], es[|es| - 1]);
  }

  /**
   * The text of a directory is a JSON object opening with its name and closing
   * its content list. An empty directory (or a plain file) lists nothing; any
   * other directory leaves a comma before the closing bracket, so its text is
   * not strict JSON.
   */
  lemma DirJsonShape(dir: Entry)
    ensures var s := DirJson(dir);
      && |s| >= |Head(dir.name)| + 2
      && s[..|Head(dir.name)|] == Head(dir.name)
      && s[|s| - 2..] == "]}"
    ensures Children(dir) == [] ==> DirJson(dir) == Head(dir.name) + "]}"
    ensures Children(dir) != [] ==> var s := DirJson(dir); s[|s| - 3..] == ",]}"
  {
    var s := DirJson(dir);
    var items := if dir.Directory? then ItemsJson(dir.entries) else "";
    assert s == Head(dir.name) + items + "]}";
    if Children(dir) != [] {
      ItemsJsonEndsWithComma(dir.entries);
      assert s[|s| - 3] == items[|items| - 1];
    }
  }

  /** A pass that finds another entry extends the listing by that entry and its comma. */
  lemma ListingExtends(children: seq<Entry>, count: nat)
    requires count < |children|
    ensures ItemsJson(children[..count + 1]) == ItemsJson(children[..count]) + EntryJson(children[count]) + ","
  {
    assert children[..count + 1] == children[..count] + [children[count]];
    ItemsJsonSnoc(children[..count], children[count]);
  }

  /** Regrouping over abstract strings, stated apart to keep the solver's work small. */
  lemma Regroup(head: string, listing: string, item: string)
    ensures (head + listing) + item + "," == head + (listing + item + ",")
  {
  }

  /**
   * `jsonDirectory(dir)`: the do-while loop over `openNextFile()`, recursing
   * into subdirectories. `count` counts the passes and, since every pass but
   * the last consumes one entry, is also the position of the iterator.
   */
  method JsonDirectoryText(dir: Entry) returns (s: string)
    ensures s == DirJson(dir)
    decreases dir
  {
    var children := Children(dir);
    ghost var head := Head(dir.name);
    s := "{\"directory\":\"";
    s := s + dir.name;
    s := s + "\", \"content\":[";
    var count := 0;
    var more := true;
    while more
      invariant count <= |children| + 1
      invariant more ==> count <= |children|
      invariant more && count == 0 ==> s == head
      invariant more && count > 0 ==> s + "," == head + ItemsJson(children[..count])
      invariant !more ==> s == head + ItemsJson(children)
      decreases |children| + 1 - count
    {
      var hasFile := count < |children|;       // openNextFile() returned a valid File
      if count > 0 {
        s := s + ",";
      }
      ghost var listing := ItemsJson(children[..count]);
      assert s == head + listing;
      var item := "";
      if hasFile && children[count].Directory? {
        item := JsonDirectoryText(children[count]);
      } else if hasFile {
        item := "{\"filename\":\"";
        item := item + children[count].name;
        item := item + "\", \"size\":\"";
        item := item + children[count].sizeText;
        item := item + "\"}";
      }
      s := s + item;
      if hasFile {
        assert item == EntryJson(children[count]);
        ListingExtends(children, count);
        Regroup(head, listing, item);
      } else {
        assert children[..count] == children;
      }
      count := count + 1;
      more := hasFile;
    }
    s := s + "]}";
  }
}
