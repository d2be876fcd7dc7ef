/** The photo carousel of client/components/BirdPhotoCarousel.tsx: the
    `selectedImageIndex` state machine behind the full-screen viewer, what
    the component renders for a given state, and `formatImageCaption`. */
module Carousel {
  import opened Wrappers
  import Text

  /** `selectedImageIndex`: `None` while no image is open full-screen. */
  type Selection = Option<int>

  /** The interactions that change the selection: clicking thumbnail `index`,
      dismissing the dialog, and the two arrows. */
  datatype Event = Open(index: int) | Close | Previous | Next

  /** One handler: `openImageModal`, `closeImageModal`, `goToPrevious`, `goToNext`. */
  function Step(len: nat, sel: Selection, e: Event): (r: Selection)
    ensures e.Open? ==> r == Some(e.index)
    ensures e.Close? ==> r == None
    ensures e.Previous? || e.Next? ==> (r.Some? <==> sel.Some?)
    ensures e.Previous? && sel.Some? ==> r.value == (if sel.value > 0 then sel.value - 1 else sel.value)
    ensures e.Next? && sel.Some? ==> r.value == (if sel.value < len - 1 then sel.value + 1 else sel.value)
  {
    match e
    case Open(i) => Some(i)
    case Close => None
    case Previous => if sel.Some? && sel.value > 0 then Some(sel.value - 1) else sel
    case Next => if sel.Some? && sel.value < len - 1 then Some(sel.value + 1) else sel
  }

  /** The selection after a sequence of events. */
  function Run(len: nat, sel: Selection, es: seq<Event>): Selection
    decreases |es|
  {
    if |es| == 0 then sel else Run(len, Step(len, sel, es[0]), es[1..])
  }

  /** The selection is absent or names an existing image. */
  predicate InRange(len: nat, sel: Selection) {
    sel.None? || 0 <= sel.value < len
  }

  /** The events the rendered component can dispatch: a thumbnail exists for
      every index of `images`, and the dialog and arrows only once something
      is rendered. An empty list renders nothing, so offers no event. */
  predicate Dispatchable(images: seq<string>, e: Event) {
    |images| > 0 && (e.Open? ==> 0 <= e.index < |images|)
  }

  /** Any sequence of dispatchable events keeps the selection in range. */
  lemma {:induction false} RunStaysInRange(images: seq<string>, sel: Selection, es: seq<Event>)
    requires InRange(|images|, sel)
    requires forall k :: 0 <= k < |es| ==> Dispatchable(images, es[k])
    ensures InRange(|images|, Run(|images|, sel, es))
    decreases |es|
  {
    if |es| > 0 {
      RunStaysInRange(images, Step(|images|, sel, es[0]), es[1..]);
    }
  }

  /** Next then previous returns to an index that had a successor, and
      previous then next to one that had a predecessor. */
  lemma NextThenPrevious(len: nat, i: int)
    ensures 0 <= i < len - 1 ==> Run(len, Some(i), [Next, Previous]) == Some(i)
    ensures 0 < i < len ==> Run(len, Some(i), [Previous, Next]) == Some(i)
  {
    assert [Next, Previous][1..] == [Previous];
    assert [Previous, Next][1..] == [Next];
  }

  /** The arrows stop at the ends: previous at the first image and next at
      the last leave the selection as it is, and so does either arrow when
      nothing is selected. */
  lemma ArrowsStopAtEnds(len: nat, sel: Selection)
    ensures sel == Some(0) ==> Step(len, sel, Previous) == sel
    ensures len > 0 && sel == Some(len - 1) ==> Step(len, sel, Next) == sel
    ensures sel.None? ==> Step(len, sel, Previous) == None && Step(len, sel, Next) == None
  {
  }

  /** The full-screen viewer's content for a selected image. */
  datatype Viewer = Viewer(
    image: string,
    caption: string,
    showPrevious: bool,
    showNext: bool,
    counter: Option<int>)

  /** What the component renders: the thumbnail captions, whether the strip
      gets its own arrows, whether the dialog is open, and its content. */
  datatype Rendered = Rendered(
    captions: seq<string>,
    stripArrows: bool,
    dialogOpen: bool,
    viewer: Option<Viewer>)

  /** `images[selectedImageIndex]`, which is `undefined` out of range; an
      empty URL is falsy too and shows no viewer content. */
  function CurrentImage(images: seq<string>, sel: Selection): (r: Option<string>)
    ensures r.Some? ==> sel.Some? && 0 <= sel.value < |images| && r.value == images[sel.value] && r.value != ""
    ensures InRange(|images|, sel) && sel.Some? && images[sel.value] != "" ==> r.Some?
  {
    if sel.Some? && 0 <= sel.value < |images| && images[sel.value] != ""
    then Some(images[sel.value]) else None
  }

  /** What the component renders: nothing for an empty list; otherwise one
      caption per thumbnail, strip arrows past two images, and the dialog
      open exactly while something is selected. */
  function Render(images: seq<string>, sel: Selection): (r: Option<Rendered>)
    ensures r.None? <==> |images| == 0
    ensures r.Some? ==> (r.value.stripArrows <==> |images| > 2)
    ensures r.Some? ==> |r.value.captions| == |images|
    ensures r.Some? ==> forall k :: 0 <= k < |images| ==> r.value.captions[k] == FormatImageCaption(images[k])
    ensures r.Some? ==> (r.value.dialogOpen <==> sel.Some?)
    ensures r.Some? ==> (r.value.viewer.Some? <==> CurrentImage(images, sel).Some?)
  {
    if |images| == 0 then None
    else
      var len := |images|;
      Some(Rendered(
        seq(len, k requires 0 <= k < len => FormatImageCaption(images[k])),
        len > 2,
        sel.Some?,
        match CurrentImage(images, sel)
        case None => None
        case Some(url) =>
          var i := sel.value;
          Some(Viewer(
            url,
            FormatImageCaption(url),
            len > 1 && i > 0,
            len > 1 && i < len - 1,
            if len > 1 then Some(i + 1) else None))))
  }

  /** For a selected index in range, the previous arrow shows exactly when
      the index is positive, the next arrow exactly when it is not the last,
      and the counter, shown exactly when there are several images, reads
      the 1-based position `i + 1` in 1..len; the viewer shows `images[i]`
      captioned by its file name. */
  lemma ViewerControls(images: seq<string>, i: int)
    requires 0 <= i < |images|
    requires images[i] != ""
    ensures Render(images, Some(i)).Some?
    ensures Render(images, Some(i)).value.dialogOpen
    ensures Render(images, Some(i)).value.viewer.Some?
    ensures Render(images, Some(i)).value.viewer.value.showPrevious <==> i > 0
    ensures Render(images, Some(i)).value.viewer.value.showNext <==> i < |images| - 1
    ensures Render(images, Some(i)).value.viewer.value.counter.Some? ==>
      1 <= Render(images, Some(i)).value.viewer.value.counter.value <= |images|
    ensures Render(images, Some(i)).value.viewer.value.counter.Some? <==> |images| > 1
    ensures Render(images, Some(i)).value.viewer.value.counter.Some? ==>
      Render(images, Some(i)).value.viewer.value.counter.value == i + 1
    ensures Render(images, Some(i)).value.viewer.value.image == images[i]
    ensures Render(images, Some(i)).value.viewer.value.caption == FormatImageCaption(images[i])
  {
  }

  /** Without a selection the dialog is closed and shows nothing. */
  lemma ClosedViewer(images: seq<string>)
    requires |images| > 0
    ensures !Render(images, None).value.dialogOpen
    ensures Render(images, None).value.viewer.None?
  {
  }

  // ---- formatImageCaption ----

  /** Where the text after the last `/` among `s[..i]` starts, given that
      `s[i..]` holds no `/`. */
  function SegmentStart(s: string, i: nat): (k: nat)
    requires i <= |s|
    requires forall j :: i <= j < |s| ==> s[j] != '/'
    ensures k <= i
    ensures forall j :: k <= j < |s| ==> s[j] != '/'
    ensures k > 0 ==> s[k - 1] == '/'
    decreases i
  {
    if i == 0 || s[i - 1] == '/' then i else SegmentStart(s, i - 1)
  }

  /** `url.split('/').pop()`: the text after the last `/` (all of `s` if none). */
  function LastSegment(s: string): (r: string)
    ensures '/' !in r
    ensures |r| <= |s| && s[|s| - |r|..] == r
    ensures |r| < |s| ==> s[|s| - |r| - 1] == '/'
  {
    var k := SegmentStart(s, |s|);
    var r := s[k..];
    assert forall j :: 0 <= j < |r| ==> r[j] == s[k + j];
    r
  }

  /** The length of the longest suffix of `s` free of `.` and `/`. */
  function TrailingRun(s: string): (n: nat)
    ensures n <= |s|
    ensures forall j :: |s| - n <= j < |s| ==> s[j] != '.' && s[j] != '/'
    ensures n < |s| ==> s[|s| - n - 1] == '.' || s[|s| - n - 1] == '/'
    decreases |s|
  {
    if |s| == 0 || s[|s| - 1] == '.' || s[|s| - 1] == '/' then 0
    else
      var n := TrailingRun(s[..|s| - 1]);
      assert forall j :: |s| - 1 - n <= j < |s| - 1 ==> s[j] == s[..|s| - 1][j];
      n + 1
  }

  /** `.replace(/\.[^/.]+$/, '')`: drop a final `.` followed by at least one
      character that is neither `.` nor `/`. */
  function StripExtension(s: string): (r: string)
    ensures |r| <= |s| && r == s[..|r|]
    ensures |r| < |s| ==>
      s[|r|] == '.' && |r| + 1 < |s| && forall j :: |r| < j < |s| ==> s[j] != '.' && s[j] != '/'
    ensures |r| == |s| ==> forall k :: 0 <= k < |s| - 1 && s[k] == '.' ==>
      exists j :: k < j < |s| && (s[j] == '.' || s[j] == '/')
  {
    var n := TrailingRun(s);
    if 0 < n < |s| && s[|s| - n - 1] == '.' then s[..|s| - n - 1]
    else
      assert forall k :: 0 <= k < |s| - 1 && s[k] == '.' ==>
        exists j :: k < j < |s| && (s[j] == '.' || s[j] == '/') by {
        forall k | 0 <= k < |s| - 1 && s[k] == '.'
          ensures exists j :: k < j < |s| && (s[j] == '.' || s[j] == '/')
        {
          if n == 0 {
            assert s[|s| - 1] == '.' || s[|s| - 1] == '/';
          } else {
            var p := |s| - n - 1;
            assert k < p;
            assert s[p] == '/';
          }
        }
      }
      s
  }

  /** `charAt(0).toUpperCase() + slice(1)`. */
  function Capitalize(s: string): (r: string)
    ensures |r| == |s|
    ensures |s| > 0 ==> r[0] == Text.ToUpperChar(s[0]) && r[1..] == s[1..]
  {
    if |s| == 0 then "" else [Text.ToUpperChar(s[0])] + s[1..]
  }

  function FormatImageCaption(url: string): (caption: string)
    ensures |caption| <= |url|
    ensures '/' !in caption
  {
    var seg := LastSegment(url);
    var name := StripExtension(seg);
    var cap := Capitalize(name);
    assert forall j :: 0 <= j < |name| ==> name[j] == seg[j] && seg[j] in seg;
    forall j | 0 <= j < |cap|
      ensures cap[j] != '/'
    {
      if j > 0 {
        assert cap[j] == cap[1..][j - 1] == name[1..][j - 1] == name[j];
      }
    }
    cap
  }

  /** A path `dir/name.ext` is captioned with its capitalised file name:
      the directory and the extension are dropped, the rest of the name kept. */
  lemma CaptionOfPath(dir: string, name: string, ext: string)
    requires '/' !in name
    requires |ext| > 0 && '.' !in ext && '/' !in ext
    ensures FormatImageCaption(dir + "/" + name + "." + ext) == Capitalize(name)
  {
    var seg := name + "." + ext;
    assert dir + "/" + name + "." + ext == dir + "/" + seg;
    LastSegmentAfterSlash(dir, seg);
    ExtensionRun(name, ext);
    assert seg[..|seg| - |ext| - 1] == name;
  }

  /** The trailing run of `name.ext` is exactly the extension. */
  lemma ExtensionRun(name: string, ext: string)
    requires '.' !in ext && '/' !in ext
    ensures TrailingRun(name + "." + ext) == |ext|
  {
    var seg := name + "." + ext;
    forall k | 0 <= k < |ext|
      ensures ext[k] != '.' && ext[k] != '/'
    {
      assert ext[k] in ext;
    }
    assert forall j :: |seg| - |ext| <= j < |seg| ==> seg[j] == ext[j - (|seg| - |ext|)];
    assert seg[|seg| - |ext| - 1] == '.';
  }

  /** A name without a dot keeps its whole last segment. */
  lemma CaptionWithoutExtension(dir: string, name: string)
    requires '/' !in name && '.' !in name
    ensures FormatImageCaption(dir + "/" + name) == Capitalize(name)
  {
    LastSegmentAfterSlash(dir, name);
  }

  lemma LastSegmentAfterSlash(dir: string, seg: string)
    requires '/' !in seg
    ensures LastSegment(dir + "/" + seg) == seg
  {
    var s := dir + "/" + seg;
    assert s[|s| - |seg|..] == seg;
    assert s[|s| - |seg| - 1] == '/';
  }

  /** The bundled rock pigeon photo is captioned "Male". */
  lemma RockPigeonCaption()
    ensures FormatImageCaption("/images/birds/rock-pigeon/male.png") == "Male"
  {
    var url := "/images/birds/rock-pigeon/male.png";
    var dir := "/images/birds/rock-pigeon";
    assert url == dir + "/" + "male" + "." + "png" by {
      assert url[..|dir|] == dir;
    }
    CaptionOfPath(dir, "male", "png");
  }
}
