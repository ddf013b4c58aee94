/**
 * The single-window prototype `WatermarkerApp` (main.py): one canvas onto
 * which an image is dropped as the background and a text or image watermark
 * is added. Canvas item positions are kept as the integer displacement each
 * item has been moved by since it was created; the creation points (the
 * canvas centre for the background and the text, the top-left corner for the
 * image) never change.
 */
module Prototype {
  import opened Wrappers
  import opened Geometry
  import opened Drag
  import opened DropPath

  /** `drag_data["item"]`. */
  datatype DragTag = NoItem | TextTag | ImgTag

  /** A background image item: the size it was resized to and how far it has moved. */
  datatype Layer = Layer(size: Size, shift: Point)

  /**
   * Which handler a pointer event reaches. Only the three text handlers are
   * bound (to the `watermark-text` tag), so an event reaches a handler only
   * when it is on the text watermark.
   */
  datatype Target = OnText | Elsewhere

  class WatermarkerApp {
    const canvas: Size
    var pointer: Point
    var dragItem: DragTag
    var textShown: bool
    var text: string
    var textShift: Point
    var imgShown: bool
    var imgSize: Size
    /** Background items, oldest first; every drop adds one, none is deleted. */
    var backgrounds: seq<Layer>

    /** At most one watermark is ever on the canvas. */
    predicate Valid()
      reads this
    {
      Positive(canvas) && !(textShown && imgShown)
    }

    /** The text handlers' view of `drag_data` and the text item. */
    function TextView(): DragState
      reads this
    {
      DragState(pointer, dragItem == TextTag, textShift)
    }

    constructor(canvasW: int, canvasH: int)
      requires canvasW > 0 && canvasH > 0
      ensures Valid() && canvas == Size(canvasW, canvasH)
      ensures pointer == Point(0, 0) && dragItem == NoItem
      ensures !textShown && !imgShown && backgrounds == []
    {
      canvas := Size(canvasW, canvasH);
      pointer := Point(0, 0);
      dragItem := NoItem;
      textShown := false;
      text := "";
      textShift := Point(0, 0);
      imgShown := false;
      imgSize := Size(0, 0);
      backgrounds := [];
    }

    /**
     * `load_image`: the dropped path is cleaned, opened (`open` stands for
     * `Image.open`, `None` for a failure), scaled to touch the canvas and
     * added as a new background item at the canvas centre. Any failure,
     * including Pillow's refusal to resize to an empty size, is printed and
     * leaves the canvas as it was.
     */
    method LoadImage(data: string, open: string -> Option<Dimensions>) returns (loaded: bool)
      requires Valid()
      modifies this
      ensures Valid()
      ensures loaded <==> (open(CleanPath(data)).Some? &&
        Positive(FillCanvas(open(CleanPath(data)).value, canvas)))
      ensures loaded ==> (backgrounds ==
        old(backgrounds) + [Layer(FillCanvas(open(CleanPath(data)).value, canvas), Point(0, 0))])
      ensures !loaded ==> backgrounds == old(backgrounds)
      ensures pointer == old(pointer) && dragItem == old(dragItem)
      ensures textShown == old(textShown) && textShift == old(textShift) && text == old(text)
      ensures imgShown == old(imgShown) && imgSize == old(imgSize)
    {
      var path := CleanPath(data);
      match open(path) {
        case None =>
          loaded := false;
        case Some(src) =>
          var fitted := FillCanvas(src, canvas);
          loaded := fitted.w > 0 && fitted.h > 0;
          if loaded {
            backgrounds := backgrounds + [Layer(fitted, Point(0, 0))];
          }
      }
    }

    /** `on_watermark_text_click`. */
    method OnTextClick(at: Point)
      modifies this
      ensures TextView() == Step(old(TextView()), Press(at))
      ensures dragItem == TextTag
      ensures textShown == old(textShown) && imgShown == old(imgShown) && backgrounds == old(backgrounds)
      ensures text == old(text) && imgSize == old(imgSize)
    {
      pointer := at;
      dragItem := TextTag;
    }

    /** `move_watermark_text`: every item tagged `watermark-text` moves by the pointer's step. */
    method MoveText(to: Point)
      modifies this
      ensures TextView() == Step(old(TextView()), Motion(to))
      ensures dragItem == old(dragItem)
      ensures textShown == old(textShown) && imgShown == old(imgShown) && backgrounds == old(backgrounds)
      ensures text == old(text) && imgSize == old(imgSize)
    {
      if dragItem == TextTag {
        textShift := Add(textShift, Sub(to, pointer));
        pointer := to;
      }
    }

    /** `on_watermark_text_release`: disarms whatever drag was in progress. */
    method OnTextRelease()
      modifies this
      ensures TextView() == Step(old(TextView()), Release)
      ensures dragItem == NoItem
      ensures textShown == old(textShown) && imgShown == old(imgShown) && backgrounds == old(backgrounds)
      ensures text == old(text) && imgSize == old(imgSize)
    {
      dragItem := NoItem;
    }

    /** `on_watermark_img_click`: arms an image drag only while the image watermark is on the canvas. */
    method OnImgClick(at: Point)
      modifies this
      ensures imgShown ==> pointer == at && dragItem == ImgTag
      ensures !imgShown ==> pointer == old(pointer) && dragItem == old(dragItem)
      ensures textShift == old(textShift) && backgrounds == old(backgrounds)
      ensures textShown == old(textShown) && imgShown == old(imgShown)
      ensures text == old(text) && imgSize == old(imgSize)
    {
      if imgShown {
        pointer := at;
        dragItem := ImgTag;
      }
    }

    /**
     * `move_watermark_img`: during an image drag the item moved is the most
     * recent background, not the watermark image; with no background nothing
     * moves.
     */
    method MoveImg(to: Point)
      modifies this
      ensures old(dragItem) == ImgTag ==> pointer == to
      ensures old(dragItem) == ImgTag && old(backgrounds) != [] ==>
        var last := |backgrounds| - 1;
        |backgrounds| == |old(backgrounds)| &&
        backgrounds[..last] == old(backgrounds)[..last] &&
        backgrounds[last] == old(backgrounds)[last].(shift := Add(old(backgrounds)[last].shift, Sub(to, old(pointer))))
      ensures old(dragItem) != ImgTag ==> pointer == old(pointer) && backgrounds == old(backgrounds)
      ensures old(backgrounds) == [] ==> backgrounds == []
      ensures dragItem == old(dragItem) && textShift == old(textShift)
      ensures textShown == old(textShown) && imgShown == old(imgShown) && imgSize == old(imgSize)
      ensures text == old(text)
    {
      if dragItem == ImgTag {
        if backgrounds != [] {
          var last := |backgrounds| - 1;
          var layer := backgrounds[last];
          backgrounds := backgrounds[last := layer.(shift := Add(layer.shift, Sub(to, pointer)))];
        }
        pointer := to;
      }
    }

    /** `on_watermark_img_release`. */
    method OnImgRelease()
      modifies this
      ensures dragItem == NoItem && pointer == old(pointer) && textShift == old(textShift)
      ensures backgrounds == old(backgrounds)
      ensures textShown == old(textShown) && imgShown == old(imgShown)
      ensures text == old(text) && imgSize == old(imgSize)
    {
      dragItem := NoItem;
    }

    /**
     * A pointer event as the canvas delivers it: text-tag events reach the
     * text handlers, everything else reaches nothing. The image handlers are
     * never bound, so no pointer event moves a background.
     */
    method Dispatch(e: Event, target: Target)
      modifies this
      ensures target == OnText ==> TextView() == Step(old(TextView()), e)
      ensures target == Elsewhere ==> TextView() == old(TextView()) && dragItem == old(dragItem)
      ensures backgrounds == old(backgrounds) && imgSize == old(imgSize)
      ensures textShown == old(textShown) && imgShown == old(imgShown) && text == old(text)
    {
      if target == OnText {
        match e {
          case Press(at) => OnTextClick(at);
          case Motion(to) => MoveText(to);
          case Release => OnTextRelease();
        }
      }
    }

    /**
     * `add_watermark_text`: an empty or cancelled entry changes nothing;
     * otherwise both watermarks are removed and the text is created at the
     * canvas centre.
     */
    method AddWatermarkText(entry: string)
      requires Valid()
      modifies this
      ensures Valid()
      ensures entry == [] ==> (textShown == old(textShown) && imgShown == old(imgShown) &&
        text == old(text) && textShift == old(textShift))
      ensures entry != [] ==> textShown && !imgShown && text == entry && textShift == Point(0, 0)
      ensures pointer == old(pointer) && dragItem == old(dragItem) && backgrounds == old(backgrounds)
      ensures imgSize == old(imgSize)
    {
      if entry != [] {
        textShown := false;
        imgShown := false;
        text := entry;
        textShift := Point(0, 0);
        textShown := true;
      }
    }

    /**
     * `add_watermark_img`: an empty or cancelled choice changes nothing;
     * otherwise both watermarks are removed before the file is opened, and
     * the image appears at the top-left corner only if opening succeeds (a
     * failure raises after the removal).
     */
    method AddWatermarkImg(path: string, open: string -> Option<Dimensions>)
      requires Valid()
      modifies this
      ensures Valid()
      ensures path == [] ==> (textShown == old(textShown) && imgShown == old(imgShown) &&
        imgSize == old(imgSize))
      ensures path != [] ==> !textShown && (imgShown <==> open(path).Some?)
      ensures path != [] && open(path).Some? ==> imgSize == open(path).value
      ensures path != [] && open(path).None? ==> imgSize == old(imgSize)
      ensures pointer == old(pointer) && dragItem == old(dragItem) && backgrounds == old(backgrounds)
      ensures text == old(text) && textShift == old(textShift)
    {
      if path != [] {
        textShown := false;
        imgShown := false;
        match open(path) {
          case None =>
          case Some(dims) =>
            imgSize := dims;
            imgShown := true;
        }
      }
    }
  }
}
