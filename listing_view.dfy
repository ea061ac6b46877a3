/** What the image viewer renders from a listing (renderer/templates.js,
    `ImageViewer.imageExtentions` and the two `then` steps of
    `handlInputUrlChange`): separator normalisation, one paragraph per
    directory, one image frame per file with a recognised image extension. */
module ListingView {
  import Seqs
  import opened FsDir
  import opened Dom

  // ---------------------------------------------------------------------
  // `filename.replace(/\\+/g, '/')`

  /** The number of backslashes `s` starts with. */
  function LeadingBackslashes(s: string): (n: nat)
    ensures n <= |s|
    ensures forall i :: 0 <= i < n ==> s[i] == '\\'
    ensures n < |s| ==> s[n] != '\\'
  {
    if s != [] && s[0] == '\\' then 1 + LeadingBackslashes(s[1..]) else 0
  }

  /** Replaces every maximal run of backslashes by one `/`, left to right, as
      the global regular-expression replacement does. */
  function CollapseBackslashes(s: string): (r: string)
    ensures |r| <= |s|
    ensures '\\' !in r
    decreases |s|
  {
    if s == [] then []
    else if s[0] == '\\' then "/" + CollapseBackslashes(s[LeadingBackslashes(s)..])
    else [s[0]] + CollapseBackslashes(s[1..])
  }

  /** Reference definition, one character at a time: a backslash becomes `/`
      unless it follows another backslash, when it disappears; every other
      character is copied. */
  function Scan(s: string, afterBackslash: bool): string
  {
    if s == [] then []
    else if s[0] == '\\' then (if afterBackslash then "" else "/") + Scan(s[1..], true)
    else [s[0]] + Scan(s[1..], false)
  }

  /** Inside a run of backslashes the rest of the run is dropped. */
  lemma {:induction false} ScanSkipsRun(s: string)
    ensures Scan(s, true) == Scan(s[LeadingBackslashes(s)..], true)
  {
    if s != [] && s[0] == '\\' {
      ScanSkipsRun(s[1..]);
      assert s[1..][LeadingBackslashes(s[1..])..] == s[LeadingBackslashes(s)..];
    }
  }

  /** The run-by-run replacement agrees with the character-by-character reading. */
  lemma {:induction false} CollapseIsScan(s: string)
    ensures CollapseBackslashes(s) == Scan(s, false)
    decreases |s|
  {
    if s != [] {
      if s[0] == '\\' {
        var rest := s[LeadingBackslashes(s)..];
        ScanSkipsRun(s[1..]);
        assert s[1..][LeadingBackslashes(s[1..])..] == rest;
        CollapseIsScan(rest);
        assert rest == [] || rest[0] != '\\';
        if rest != [] {
          assert Scan(rest, true) == Scan(rest, false);
        }
      } else {
        CollapseIsScan(s[1..]);
      }
    }
  }

  /** A name without backslashes is left as it is. */
  lemma {:induction false} CollapseKeepsPlainNames(s: string)
    requires '\\' !in s
    ensures CollapseBackslashes(s) == s
  {
    if s != [] {
      assert s[0] in s;
      assert forall c :: c in s[1..] ==> c in s;
      CollapseKeepsPlainNames(s[1..]);
    }
  }

  /** Normalising twice is normalising once. */
  lemma CollapseIdempotent(s: string)
    ensures CollapseBackslashes(CollapseBackslashes(s)) == CollapseBackslashes(s)
  {
    CollapseKeepsPlainNames(CollapseBackslashes(s));
  }

  /** The replacement distributes over every split that does not cut through
      a run of backslashes: the left part does not end in a backslash, or the
      right part does not start with one. */
  lemma {:induction false} CollapseAppend(a: string, b: string)
    requires a == [] || b == [] || a[|a| - 1] != '\\' || b[0] != '\\'
    ensures CollapseBackslashes(a + b) == CollapseBackslashes(a) + CollapseBackslashes(b)
  {
    CollapseIsScan(a + b);
    CollapseIsScan(a);
    CollapseIsScan(b);
    ScanAppend(a, b, false);
    if a != [] && a[|a| - 1] == '\\' {
      assert Scan(b, true) == Scan(b, false);
    }
  }

  /** Scanning a concatenation scans the right part in the state the left part
      ends in: just after a backslash exactly when the left part ends in one. */
  lemma {:induction false} ScanAppend(a: string, b: string, after: bool)
    ensures Scan(a + b, after) == Scan(a, after) + Scan(b, if a == [] then after else a[|a| - 1] == '\\')
  {
    if a == [] {
      assert a + b == b;
    } else {
      assert (a + b)[0] == a[0];
      assert (a + b)[1..] == a[1..] + b;
      ScanAppend(a[1..], b, a[0] == '\\');
    }
  }

  // ---------------------------------------------------------------------
  // Recognised image files

  /** `ImageViewer.imageExtentions`. */
  const ImageExtensions: seq<string> := ["jpg", "png"]

  /** `String.prototype.endsWith`. */
  predicate EndsWith(s: string, suffix: string)
  {
    |suffix| <= |s| && s[|s| - |suffix|..] == suffix
  }

  /** `imageExtentions.map(ext => filename.endsWith('.' + ext)).some(t => t)`. */
  predicate IsImageName(filename: string)
  {
    exists i :: 0 <= i < |ImageExtensions| && EndsWith(filename, "." + ImageExtensions[i])
  }

  /** Exactly the names ending in `.jpg` or `.png` are images, letter case included. */
  lemma ImageNames(filename: string)
    ensures IsImageName(filename) <==> EndsWith(filename, ".jpg") || EndsWith(filename, ".png")
  {
    assert "." + ImageExtensions[0] == ".jpg";
    assert "." + ImageExtensions[1] == ".png";
  }

  /** Upper-case extensions are not recognised. */
  lemma UpperCaseIsNotImage(stem: string)
    ensures !IsImageName(stem + ".PNG") && !IsImageName(stem + ".JPG")
  {
    var upper := stem + ".PNG";
    ImageNames(upper);
    assert upper[|upper| - 1] == 'G';
    var upperJ := stem + ".JPG";
    ImageNames(upperJ);
    assert upperJ[|upperJ| - 1] == 'G';
  }

  // ---------------------------------------------------------------------
  // From a listing to the contents of the two containers

  /** The first `then`: separators normalised, flags kept. */
  function NormalizeEntry(e: DirEntry): (n: DirEntry)
    ensures n.isDirectory == e.isDirectory && n.isFile == e.isFile
    ensures '\\' !in n.filename
  {
    e.(filename := CollapseBackslashes(e.filename))
  }

  predicate IsDirectoryEntry(e: DirEntry) { e.isDirectory }

  predicate IsImageEntry(e: DirEntry) { e.isFile && IsImageName(e.filename) }

  function ToParagraph(e: DirEntry): NodeKind { Paragraph(e.filename) }

  function ToImgFrame(e: DirEntry): NodeKind { ImgFrame(e.filename) }

  /** What the directory container receives for a listing. */
  function DirNodes(files: seq<DirEntry>): (r: seq<NodeKind>)
    ensures |r| <= |files|
    ensures forall i :: 0 <= i < |r| ==> r[i].Paragraph? && '\\' !in r[i].text
  {
    Seqs.Map(ToParagraph, Seqs.Filter(IsDirectoryEntry, Seqs.Map(NormalizeEntry, files)))
  }

  /** What the image container receives for a listing. */
  function ImageNodes(files: seq<DirEntry>): (r: seq<NodeKind>)
    ensures |r| <= |files|
    ensures forall i :: 0 <= i < |r| ==> r[i].ImgFrame? && '\\' !in r[i].url && IsImageName(r[i].url)
  {
    Seqs.Map(ToImgFrame, Seqs.Filter(IsImageEntry, Seqs.Map(NormalizeEntry, files)))
  }

  /** The rendering of one entry. */
  lemma RenderOne(e: DirEntry)
    ensures DirNodes([e]) == if e.isDirectory then [Paragraph(CollapseBackslashes(e.filename))] else []
    ensures ImageNodes([e]) ==
      if e.isFile && IsImageName(CollapseBackslashes(e.filename)) then [ImgFrame(CollapseBackslashes(e.filename))] else []
  {
    assert Seqs.Map(NormalizeEntry, [e]) == [NormalizeEntry(e)];
  }

  /** Rendering a concatenation renders each part after the other: listing order is kept. */
  lemma RenderAppend(a: seq<DirEntry>, b: seq<DirEntry>)
    ensures DirNodes(a + b) == DirNodes(a) + DirNodes(b)
    ensures ImageNodes(a + b) == ImageNodes(a) + ImageNodes(b)
  {
    Seqs.MapAppend(NormalizeEntry, a, b);
    Seqs.FilterAppend(IsDirectoryEntry, Seqs.Map(NormalizeEntry, a), Seqs.Map(NormalizeEntry, b));
    Seqs.FilterAppend(IsImageEntry, Seqs.Map(NormalizeEntry, a), Seqs.Map(NormalizeEntry, b));
    Seqs.MapAppend(ToParagraph, Seqs.Filter(IsDirectoryEntry, Seqs.Map(NormalizeEntry, a)),
      Seqs.Filter(IsDirectoryEntry, Seqs.Map(NormalizeEntry, b)));
    Seqs.MapAppend(ToImgFrame, Seqs.Filter(IsImageEntry, Seqs.Map(NormalizeEntry, a)),
      Seqs.Filter(IsImageEntry, Seqs.Map(NormalizeEntry, b)));
  }

  /** Every paragraph comes from a directory entry and carries its normalised
      name, and every directory entry is rendered. */
  lemma DirNodesMembers(files: seq<DirEntry>, n: NodeKind)
    ensures n in DirNodes(files) <==>
      exists i :: 0 <= i < |files| && files[i].isDirectory && n == Paragraph(CollapseBackslashes(files[i].filename))
  {
    var normalized := Seqs.Map(NormalizeEntry, files);
    var kept := Seqs.Filter(IsDirectoryEntry, normalized);
    if n in DirNodes(files) {
      var k :| 0 <= k < |kept| && DirNodes(files)[k] == n;
      var i :| 0 <= i < |normalized| && normalized[i] == kept[k];
      assert files[i].isDirectory && n == Paragraph(CollapseBackslashes(files[i].filename));
    }
    if exists i :: 0 <= i < |files| && files[i].isDirectory && n == Paragraph(CollapseBackslashes(files[i].filename)) {
      var i :| 0 <= i < |files| && files[i].isDirectory && n == Paragraph(CollapseBackslashes(files[i].filename));
      assert IsDirectoryEntry(normalized[i]);
      var k :| 0 <= k < |kept| && kept[k] == normalized[i];
      assert DirNodes(files)[k] == n;
    }
  }

  /** Every frame comes from a file entry with an image name and carries its
      normalised name as `url`, and every such entry is rendered. */
  lemma ImageNodesMembers(files: seq<DirEntry>, n: NodeKind)
    ensures n in ImageNodes(files) <==>
      exists i :: 0 <= i < |files| && files[i].isFile && IsImageName(CollapseBackslashes(files[i].filename))
        && n == ImgFrame(CollapseBackslashes(files[i].filename))
  {
    var normalized := Seqs.Map(NormalizeEntry, files);
    var kept := Seqs.Filter(IsImageEntry, normalized);
    if n in ImageNodes(files) {
      var k :| 0 <= k < |kept| && ImageNodes(files)[k] == n;
      var i :| 0 <= i < |normalized| && normalized[i] == kept[k];
      assert files[i].isFile && IsImageName(CollapseBackslashes(files[i].filename))
        && n == ImgFrame(CollapseBackslashes(files[i].filename));
    }
    if exists i :: 0 <= i < |files| && files[i].isFile && IsImageName(CollapseBackslashes(files[i].filename))
        && n == ImgFrame(CollapseBackslashes(files[i].filename)) {
      var i :| 0 <= i < |files| && files[i].isFile && IsImageName(CollapseBackslashes(files[i].filename))
        && n == ImgFrame(CollapseBackslashes(files[i].filename));
      assert IsImageEntry(normalized[i]);
      var k :| 0 <= k < |kept| && kept[k] == normalized[i];
      assert ImageNodes(files)[k] == n;
    }
  }

  /** An entry with both flags false renders nothing anywhere. */
  lemma NeitherRendersNothing(files: seq<DirEntry>, e: DirEntry)
    requires !e.isDirectory && !e.isFile
    ensures DirNodes(files + [e]) == DirNodes(files)
    ensures ImageNodes(files + [e]) == ImageNodes(files)
  {
    RenderAppend(files, [e]);
    RenderOne(e);
  }

  /** `a.png` is an image name and `b.txt` is not. */
  lemma ExampleNames()
    ensures IsImageName("a.png") && !IsImageName("b.txt")
  {
    ImageNames("a.png");
    ImageNames("b.txt");
    assert "a.png"[1..] == ".png";
    assert "b.txt"[4] == 't';
  }

  /** The rendering of each entry of the example listing. */
  lemma ExampleEntries()
    ensures DirNodes([DirEntry(false, true, "a.png")]) == [] && ImageNodes([DirEntry(false, true, "a.png")]) == [ImgFrame("a.png")]
    ensures DirNodes([DirEntry(false, true, "b.txt")]) == [] && ImageNodes([DirEntry(false, true, "b.txt")]) == []
    ensures DirNodes([DirEntry(true, false, "sub")]) == [Paragraph("sub")] && ImageNodes([DirEntry(true, false, "sub")]) == []
  {
    CollapseKeepsPlainNames("a.png");
    CollapseKeepsPlainNames("b.txt");
    CollapseKeepsPlainNames("sub");
    ExampleNames();
    RenderOne(DirEntry(false, true, "a.png"));
    RenderOne(DirEntry(false, true, "b.txt"));
    RenderOne(DirEntry(true, false, "sub"));
  }

  /** The listing `a.png`, `b.txt`, directory `sub` renders one paragraph `sub`
      and one frame `a.png`. */
  lemma ExampleListing()
    ensures var files := [DirEntry(false, true, "a.png"), DirEntry(false, true, "b.txt"), DirEntry(true, false, "sub")];
      DirNodes(files) == [Paragraph("sub")] && ImageNodes(files) == [ImgFrame("a.png")]
  {
    var a, b, c := DirEntry(false, true, "a.png"), DirEntry(false, true, "b.txt"), DirEntry(true, false, "sub");
    ExampleEntries();
    RenderAppend([a], [b]);
    assert [a] + [b] == [a, b];
    RenderAppend([a, b], [c]);
    assert [a, b] + [c] == [a, b, c];
  }

  /** End to end: every frame rendered from a listing of `root` shows a child
      that the privileged side found accessible and a regular file, by its
      renderer-relative name with separators normalised. */
  lemma ListedFramesAreFiles(fs: FileSystem, root: string, names: seq<string>, n: NodeKind)
    requires n in ImageNodes(Walk(fs, root, names))
    ensures
      exists i :: 0 <= i < |names| && Admitted(fs, fs.normalize([root, names[i]]))
        && fs.stat(fs.normalize([root, names[i]])).kind == RegularFile
        && n == ImgFrame(CollapseBackslashes(fs.relativeToRenderer(fs.normalize([root, names[i]]))))
  {
    var files := Walk(fs, root, names);
    ImageNodesMembers(files, n);
    var j :| 0 <= j < |files| && files[j].isFile && IsImageName(CollapseBackslashes(files[j].filename))
      && n == ImgFrame(CollapseBackslashes(files[j].filename));
    WalkMember(fs, root, names, files[j]);
  }
}
