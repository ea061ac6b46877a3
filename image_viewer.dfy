/** `ImageViewer` (renderer/templates.js): the controller that owns the path
    input and the two item containers, issues an `fs:dir` request whenever the
    path changes, and fills the containers from the listing.

    The request and its answer are two steps here: `HandleInputUrlChange`
    clears the containers and records the request; `ReceiveListing` is the
    continuation that runs when the answer (or the rejection) arrives. */
module ImageViewerController {
  import opened Wrappers
  import Seqs
  import opened FsDir
  import opened Dom
  import opened ListingView
  import opened InputTextComponent

  /** The listener the viewer registers on its path input. */
  const UrlChangeHandler := Handler(0)

  /** The path the input is seeded with at start-up. */
  const InitialPath := "./"

  class ImageViewer {
    const input: InputText
    /** `item-container[data-type="fs:dir"]` */
    const dirItems: Container
    /** `item-container[data-type="fs:image"]` */
    const imageItems: Container
    /** The paths sent as `fs:dir` requests, oldest first. */
    var requests: seq<string>

    ghost predicate Valid()
      reads this, input
    {
      dirItems != imageItems && input.Valid() && input.handlers == [UrlChangeHandler]
    }

    /** The constructor: register the listener, then seed the input with
        `./`, whose synthetic change event runs the listener once. */
    constructor (initialDirs: seq<Node>, initialImages: seq<Node>)
      ensures Valid()
      ensures fresh(input) && fresh(dirItems) && fresh(imageItems)
      ensures input.Text() == InitialPath && input.changeEvents == 1 && input.calls == [UrlChangeHandler]
      ensures requests == [InitialPath]
      ensures dirItems.children == [] && imageItems.children == []
    {
      input := new InputText(Some(""));
      dirItems := new Container(initialDirs);
      imageItems := new Container(initialImages);
      requests := [];
      new;
      input.OnChange(UrlChangeHandler);
      input.SetText(InitialPath);
      // the change event reached the one registered listener: run its body
      assert input.calls == [UrlChangeHandler];
      OnUrlChange();
    }

    /** The body of the registered listener: `handlInputUrlChange(inputText.text)`. */
    method OnUrlChange()
      requires Valid()
      modifies this, dirItems, imageItems
      ensures Valid()
      ensures dirItems.children == [] && imageItems.children == []
      ensures requests == old(requests) + [input.Text()]
    {
      HandleInputUrlChange(input.Text());
    }

    /** `handlInputUrlChange(url)` up to the request: clear both containers,
        then send `url`. */
    method HandleInputUrlChange(url: string)
      requires Valid()
      modifies this, dirItems, imageItems
      ensures Valid()
      ensures dirItems.children == [] && imageItems.children == []
      ensures requests == old(requests) + [url]
    {
      ghost var removedDirs := dirItems.Clear();
      ghost var removedImages := imageItems.Clear();
      requests := requests + [url];
    }

    /** The continuation of the request: on a listing, normalise the names and
        append a paragraph per directory and a frame per image file; on a
        rejection, append nothing. */
    method ReceiveListing(response: Option<seq<DirEntry>>)
      requires Valid()
      modifies dirItems, imageItems
      ensures Valid()
      ensures Kinds(dirItems.children) ==
        Kinds(old(dirItems.children)) + (if response.Some? then DirNodes(response.value) else [])
      ensures Kinds(imageItems.children) ==
        Kinds(old(imageItems.children)) + (if response.Some? then ImageNodes(response.value) else [])
    {
      if response.Some? {
        var files := Seqs.Map(NormalizeEntry, response.value);
        AppendDirectories(files);
        AppendImages(files);
      }
    }

    /** `files.filter(f => f.isDirectory).forEach(...)`: one `<p>` per directory,
        its text the (normalised) name. */
    method AppendDirectories(files: seq<DirEntry>)
      requires Valid()
      modifies dirItems
      ensures Valid()
      ensures Kinds(dirItems.children) ==
        Kinds(old(dirItems.children)) + Seqs.Map(ToParagraph, Seqs.Filter(IsDirectoryEntry, files))
    {
      var dirs := Seqs.Filter(IsDirectoryEntry, files);
      for i := 0 to |dirs|
        invariant Kinds(dirItems.children) == Kinds(old(dirItems.children)) + Seqs.Map(ToParagraph, dirs[..i])
      {
        var p := new Node(Paragraph(dirs[i].filename));
        KindsAppend(dirItems.children, [p]);
        assert Seqs.Map(ToParagraph, dirs[..i + 1]) == Seqs.Map(ToParagraph, dirs[..i]) + [ToParagraph(dirs[i])];
        dirItems.Append(p);
      }
      assert dirs[..|dirs|] == dirs;
    }

    /** `files.filter(f => f.isFile).filter(<image extension>).forEach(...)`: one
        `<img-frame>` per image file, its `url` the (normalised) name. */
    method AppendImages(files: seq<DirEntry>)
      requires Valid()
      modifies imageItems
      ensures Valid()
      ensures Kinds(imageItems.children) ==
        Kinds(old(imageItems.children)) + Seqs.Map(ToImgFrame, Seqs.Filter(IsImageEntry, files))
    {
      var images := Seqs.Filter(IsImageEntry, files);
      for i := 0 to |images|
        invariant Kinds(imageItems.children) == Kinds(old(imageItems.children)) + Seqs.Map(ToImgFrame, images[..i])
      {
        var frame := new Node(ImgFrame(images[i].filename));
        KindsAppend(imageItems.children, [frame]);
        assert Seqs.Map(ToImgFrame, images[..i + 1]) == Seqs.Map(ToImgFrame, images[..i]) + [ToImgFrame(images[i])];
        imageItems.Append(frame);
      }
      assert images[..|images|] == images;
    }

    /** A path change answered before the next one: the containers show
        exactly the rendering of that answer, and nothing after a rejection. */
    method Browse(url: string, response: Option<seq<DirEntry>>)
      requires Valid()
      modifies this, dirItems, imageItems
      ensures Valid()
      ensures requests == old(requests) + [url]
      ensures Kinds(dirItems.children) == if response.Some? then DirNodes(response.value) else []
      ensures Kinds(imageItems.children) == if response.Some? then ImageNodes(response.value) else []
    {
      HandleInputUrlChange(url);
      ReceiveListing(response);
    }

    /** Two path changes in quick succession whose answers arrive in reverse
        order: nothing discards the older answer, and since only a path
        change clears the containers, both answers end up shown, the later
        arrival after the earlier one. */
    method OverlappingRequests(first: string, second: string,
                               firstListing: seq<DirEntry>, secondListing: seq<DirEntry>)
      requires Valid()
      modifies this, dirItems, imageItems
      ensures Valid()
      ensures requests == old(requests) + [first, second]
      ensures Kinds(dirItems.children) == DirNodes(secondListing) + DirNodes(firstListing)
      ensures Kinds(imageItems.children) == ImageNodes(secondListing) + ImageNodes(firstListing)
    {
      HandleInputUrlChange(first);
      HandleInputUrlChange(second);
      assert Kinds(dirItems.children) == [] && Kinds(imageItems.children) == [];
      ReceiveListing(Some(secondListing));
      assert Kinds(dirItems.children) == DirNodes(secondListing);
      assert Kinds(imageItems.children) == ImageNodes(secondListing);
      ReceiveListing(Some(firstListing));
    }
  }
}
