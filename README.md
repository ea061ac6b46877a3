# Image viewer: directory listing and browser UI, modelled in Dafny

This project models the core of a small desktop image browser. The browser has
two halves:

- The privileged side answers an `fs:dir` request. It normalises the requested
  path and checks that the path is readable and writable and is a directory.
  It then lists the children, drops those whose access check or stat fails,
  and describes each survivor as `{isDirectory, isFile, filename}`.
- The display side sends that request whenever its path input changes. It
  clears its directory container and its image container. From the answer it
  renders one paragraph per directory and one `img-frame` per `.jpg`/`.png`
  file.

Around these sit the `Container` and `InputText` components, the attribute
defaults of the custom elements, and a magic-number check for PNG files.

Modules, one per component:

- `FsDir` (fs_dir.dfy): `isDirectory`, `openFile` and `handleFsDir`. The
  filesystem and Node's `path` functions are an oracle: a `FileSystem` record
  of functions for `normalize`, `access`, `stat`, `readdir` and the path
  relative to the renderer directory. `Walk` is a reference definition that
  handles one child at a time. `ClassifyIsWalk` proves that the promise-and-
  filter pipeline computes it, and the listing's properties are proved of
  `Walk`.
- `MagicNumber` (magic_number.dfy): `whatKindOf` and `PNG_B10`, taken over the
  bytes that were read.
- `ListingView` (listing_view.dfy): the pure part of
  `ImageViewer.handlInputUrlChange`. This covers backslash-run normalisation,
  the image-extension test and what each container receives for a listing.
  `Scan` is a character-by-character reference for the normalisation.
- `Attributes` (attributes.dfy): the values the custom elements compute from
  their attributes, with their defaults.
- `Dom` (container.dfy): DOM nodes and the `Container` class, a child list that
  `Clear` and `Append` update in place.
- `InputTextComponent` (input_text.dfy): the `InputText` class. It holds a
  value, a listener list, a count of change events and a log of listener
  invocations.
- `ImageViewerController` (image_viewer.dfy): the `ImageViewer` class, which
  owns the input, the two containers and the list of requests sent.
- `Wrappers`, `Seqs` (seqs.dfy): `Option`, and `filter`/`map` on sequences.

Behaviours of the code worth knowing, which the model reproduces:

- A child that stats as neither a file nor a directory (a socket, a FIFO) is
  not dropped. It is listed with both flags false and its normalised child
  path `normalize(root, name)`
  (`FsDir.NeitherIsKept`). On the display side it renders nothing
  (`ListingView.NeitherRendersNothing`).
- A late answer to an older request does not replace the newer rendering. The
  containers are cleared only when the path changes. So when two answers
  arrive after both path changes, both listings stay on screen, in arrival
  order (`ImageViewerController.ImageViewer.OverlappingRequests`).
- Apart from a rejection of the request itself, the listing routine has one
  more failure: a failing `fs.readdir` after the root passed both checks
  rejects the promise. `FsDir.HandleFsDir` returns `None` for this case. The
  display side treats it like any rejected request and appends nothing.
- The filter `filepath && fd` also drops a child whose normalised path is the
  empty string. Node's `path.normalize` never returns `""`, and under that
  assumption (`FsDir.WellFormed`) a child is kept exactly when its access check
  and its stat both succeed.
- `??` falls back only on a missing attribute. An attribute set to `""` is used
  as it is. A missing `url` or `gryph` appears as the text `null` in the
  generated style.

## Model

| member | source | states |
|---|---|---|
| `FsDir.IsDirectory` | app/main.js:31-35 | true exactly when stat succeeds and reports a directory; a failed stat is "not a directory" |
| `FsDir.OpenFile` | app/main.js:39-56 | `{filepath, fd}` exactly when both the access check and the stat succeed, carrying the path and the stat's kind; `{}` otherwise |
| `FsDir.ToEntry` | app/main.js:77-81 | at most one flag is true; `isDirectory`/`isFile` are the stat's predicates; a file's name is relative to the renderer directory, anything else keeps its normalised child path `normalize(root, name)` |
| `FsDir.OpenAll` | app/main.js:75 | one result per name; result i is `{filepath, fd}` exactly when the access check and the stat of `normalize(root, names[i])` succeed, carrying that path and the stat's kind |
| `FsDir.Kept` | app/main.js:76 | no `ensures` of its own: the filter `filepath && fd` drops `{}` and an empty path; `FsDir.ClassifyIsWalk` and `FsDir.WalkMember` state which children it lets through |
| `FsDir.Entries` | app/main.js:77-81 | one record per kept object; at most one flag is true, and the flags are the stat's directory and regular-file predicates |
| `FsDir.Classify` | app/main.js:75-82 | the listing is never longer than the `readdir` result and no entry has both flags; `FsDir.ClassifyIsWalk` gives its full content |
| `FsDir.HandleFsDir` | app/main.js:59-83 | an inaccessible normalised root gives `[]`; a root that is not a directory (or fails stat) gives `[]`; the promise rejects exactly when the root passes both checks and `readdir` fails |
| `FsDir.ClassifyIsWalk` | app/main.js:74-82 | the `Promise.all`/filter/map pipeline over `normalize(root, name)` equals the child-by-child reference listing |
| `FsDir.HandleFsDirIsWalk` | app/main.js:59-83 | for an accessible directory whose `readdir` succeeds, the result is the reference listing of its children under `normalize(rawPath)` |
| `FsDir.WalkAppend` | app/main.js:74-76 | the listing of concatenated name lists is the concatenation of their listings: survivors keep `readdir` order |
| `FsDir.WalkLength` | app/main.js:74-76 | the output has exactly one entry per admitted child, so it is never longer than the `readdir` result |
| `FsDir.WalkMember` | app/main.js:39-76 | an entry is listed iff some child passes the access check and stat and is described by it; with a well-formed `normalize`, passing means access and stat both succeed |
| `FsDir.WalkEntries` | app/main.js:76-81 | every listed entry has at most one flag; every admitted child is listed with flags equal to its stat and the filename rule: relative to the renderer directory for a file, the normalised child path `normalize(root, name)` otherwise |
| `FsDir.NeitherIsKept` | app/main.js:76-80 | a child that is neither file nor directory is kept, with both flags false and its normalised child path `normalize(root, name)` |
| `MagicNumber.Every` | app/main.js:121 | `every(x => x)` is true iff every element is true |
| `MagicNumber.Comparisons` | app/main.js:119-120 | the map fails (RangeError) iff the buffer is shorter than the magic number; otherwise element i says whether byte i equals `magicNumber[i]` |
| `MagicNumber.WhatKindOf` | app/main.js:117-122 | rejects iff fewer bytes than the magic number; true iff byte i equals `magicNumber[i]` for every offset i below its length |
| `MagicNumber.PrefixDecides` | app/main.js:118-121 | bytes past the magic number's length do not change the answer |
| `MagicNumber.PngRecognised` | app/main.js:109 | any byte sequence starting with the 8-byte PNG signature is recognised by `PNG_B10` |
| `MagicNumber.OutOfRangeNeverMatches` | app/main.js:120 | a magic number holding a value outside 0..255 never matches |
| `ListingView.CollapseBackslashes` | renderer/templates.js:218 | the result has no backslash and is no longer than the input |
| `ListingView.CollapseIsScan` | renderer/templates.js:218 | the replacement equals the character-by-character reference: each maximal backslash run becomes one `/`, every other character is copied in order |
| `ListingView.CollapseKeepsPlainNames` | renderer/templates.js:218 | a name without backslashes is unchanged |
| `ListingView.CollapseIdempotent` | renderer/templates.js:218 | normalising twice equals normalising once |
| `ListingView.CollapseAppend` | renderer/templates.js:218 | the replacement distributes over every split that does not cut through a run: the left part does not end in a backslash, or the right part does not start with one |
| `ListingView.IsImageName` | renderer/templates.js:231 | no `ensures` of its own: `ListingView.ImageNames` states which names it accepts |
| `ListingView.ImageNames` | renderer/templates.js:181-186 | a name is an image iff it ends with `.jpg` or `.png` |
| `ListingView.UpperCaseIsNotImage` | renderer/templates.js:231 | `.PNG` and `.JPG` are not recognised: the match is case-sensitive |
| `ListingView.NormalizeEntry` | renderer/templates.js:217-221 | flags are kept and the normalised filename has no backslash |
| `ListingView.DirNodes` | renderer/templates.js:217-228 | the directory container receives at most one node per entry, each a paragraph whose text has no backslash; `ListingView.DirNodesMembers` and `ListingView.RenderAppend` give which ones and in what order |
| `ListingView.ImageNodes` | renderer/templates.js:217-236 | the image container receives at most one node per entry, each a frame whose `url` has no backslash and ends in an image extension; `ListingView.ImageNodesMembers` and `ListingView.RenderAppend` give which ones and in what order |
| `ListingView.RenderOne` | renderer/templates.js:223-236 | one entry yields a paragraph with its normalised name iff it is a directory, and a frame with that name as `url` iff it is a file with an image name |
| `ListingView.RenderAppend` | renderer/templates.js:222-237 | rendering a concatenated listing renders each part in turn, so nodes come in listing order |
| `ListingView.DirNodesMembers` | renderer/templates.js:223-228 | a paragraph is rendered iff some directory entry has that normalised name |
| `ListingView.ImageNodesMembers` | renderer/templates.js:230-236 | a frame is rendered iff some file entry with an image name has that normalised name as `url` |
| `ListingView.NeitherRendersNothing` | renderer/templates.js:223-236 | an entry with both flags false adds nothing to either container |
| `ListingView.ExampleNames` | renderer/templates.js:231 | `a.png` is an image name, `b.txt` is not |
| `ListingView.ExampleListing` | renderer/templates.js:222-237 | files `a.png`, `b.txt` and directory `sub` render one paragraph `sub` and one frame `a.png` |
| `ListingView.ListedFramesAreFiles` | renderer/templates.js:230-234 | every frame rendered from a listing shows an admitted regular-file child, by its renderer-relative name with separators normalised |
| `Attributes.OrElse` | renderer/templates.js:28 | `??` takes the fallback only for a missing value |
| `Attributes.Interpolate` | renderer/templates.js:47 | a missing value interpolates as `null` |
| `Attributes.UpdateImage` | renderer/templates.js:27-30 | width and height are the attributes or `10rem` when missing; the url is the attribute or `null` |
| `Attributes.UpdateGryph` | renderer/templates.js:75-77 | font size is the attribute or `1em` when missing; the glyph is the attribute or `null` |
| `Attributes.PrefixSymbol` | renderer/templates.js:136-137 | the prefix symbol is the attribute or `>` when missing |
| `Attributes.Direction` | renderer/templates.js:159-160 | the direction is the attribute or `row` when missing |
| `Attributes.RenderingDependsOnlyOnObserved` | renderer/templates.js:15-160 | each element's presentation is a function of its observed attributes alone |
| `Attributes.EmptyAttributeIsKept` | renderer/templates.js:27-160 | for every attribute map, each observed attribute set to `""` is used as it is, not replaced by the default |
| `Dom.Container.constructor` | renderer/template/components/container.js:5-7 | a container wraps a content element with its current children |
| `Dom.Container.Clear` | renderer/template/components/container.js:13-17 | the loop removes the first child until none is left: afterwards there are no children, and the removals, in order, are exactly the old children |
| `Dom.Container.Append` | renderer/template/components/container.js:19-21 | a node not yet a child is appended after the existing children, whose order is kept |
| `Dom.ClearThenAppendAll` | renderer/template/components/container.js:13-21 | clearing and then appending distinct nodes `a1..an` leaves exactly `[a1..an]` |
| `InputTextComponent.InputText.constructor` | renderer/template/components/input-text.js:5-7 | a new input has its initial value, no listeners and no events |
| `InputTextComponent.InputText.Text` | renderer/template/components/input-text.js:9-11 | the `text` getter is the stored value, or `""` when the value is null or undefined |
| `InputTextComponent.InputText.SetText` | renderer/template/components/input-text.js:13-16 | the setter stores the value, reads back as the new text and dispatches exactly one change event, which calls each listener once more |
| `InputTextComponent.InputText.OnChange` | renderer/template/components/input-text.js:22-25 | the listener is registered once; registering it again changes nothing |
| `InputTextComponent.InputText.DispatchChangeEvent` | renderer/template/components/input-text.js:27-30 | one event: every registered listener is called exactly once, in registration order |
| `InputTextComponent.SetThenGet` | renderer/template/components/input-text.js:9-16 | setting `text` to s and reading it returns s |
| `ImageViewerController.ImageViewer.constructor` | renderer/templates.js:188-204 | the listener registered before `text = './'` sees that change once, so the first request is for `./` and both containers start empty |
| `ImageViewerController.ImageViewer.OnUrlChange` | renderer/templates.js:195-198 | the listener requests the input's current text |
| `ImageViewerController.ImageViewer.HandleInputUrlChange` | renderer/templates.js:210-216 | both containers are cleared before the request for `url` is sent |
| `ImageViewerController.ImageViewer.ReceiveListing` | renderer/templates.js:216-240 | a listing appends exactly its directory paragraphs and its image frames; a rejection appends nothing |
| `ImageViewerController.ImageViewer.AppendDirectories` | renderer/templates.js:223-228 | one paragraph per directory entry is appended, in listing order |
| `ImageViewerController.ImageViewer.AppendImages` | renderer/templates.js:230-236 | one frame per image-file entry is appended, in listing order, with `url` set to its name |
| `ImageViewerController.ImageViewer.Browse` | renderer/templates.js:210-241 | after one path change and its answer, the containers hold exactly the rendering of that answer, or nothing when it was rejected |
| `ImageViewerController.ImageViewer.OverlappingRequests` | renderer/templates.js:210-241 | with two path changes answered in reverse order, both listings end up shown, the later arrival after the earlier one |

## Left out

- Window creation, the application events and the registration of the `fs:dir` handler (app/main.js:125-170): this is framework set-up.
- app/preload.js: it only forwards the request across the process boundary.
- renderer/template/template.js: shadow-DOM template cloning and style-sheet links.
- `lReadBytes` (app/main.js:91-105): stream I/O. `MagicNumber.WhatKindOf` takes the bytes it would deliver.
- Node's `path.normalize`, `path.join` and `path.relative`, and `fs.access`, `fs.stat` and `fs.readdir`: these library functions are oracle functions in `FsDir.FileSystem`, not reimplementations.
- Promise scheduling and the parallel per-child checks: an answer is a value handed to `ReceiveListing`. Interleavings other than the two in `Browse` and `OverlappingRequests` are not enumerated.
- The `console.error` logging of a rejected request.
- A failure thrown while an answer is being rendered (for example, a malformed answer): an answer here is either a well-formed listing or a rejection.
- CSS text, class lists and `style.setProperty` effects: only the values written are modelled. `SimpleIcon.updateIcon` has no defaults and is not modelled, and neither is `customElements.define`.
- The `ItemContainer` constructor re-appending its light-DOM children (renderer/templates.js:167-174): this relies on DOM move semantics, which are not modelled.
- Dom.Container.Append: requires the node not to be a child already. Moving a node that is already in this container or in another one is the DOM's behaviour, which is not modelled.
- `ImageViewer.imageItemContainer` builds a new wrapper on each access. Every wrapper shows the same content element, so it is modelled as a single container.
- InputTextComponent.InputText.SetText: the value is stored as given. The DOM's value sanitisation for an `<input>` (a text input strips line breaks on assignment) is not modelled, so `InputTextComponent.SetThenGet` reads back exactly the string that was set. The HTML that declares the element is not part of this model.
- Event listeners are closures in the source. Here they are identifiers, and the viewer runs its listener's body itself after the dispatch that invoked it.
