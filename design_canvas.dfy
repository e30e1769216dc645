/** The design canvas component (src/components/DesignCanvas.jsx) as an
    object: each `useState` hook is a field, each handler a method that
    updates the fields as the component's setters do. Date.now() and
    Math.random() are parameters; the DOM lookups of the click handler are
    summarised by a `Sample`. */
module DesignCanvas {
  import opened ChatModel
  import opened CanvasModel

  /** What the click handler hands to `onExtractColor`: nothing (the picker
      was off or the item has no image element), nothing because reading the
      pixels threw, or the distinct sampled colours. */
  datatype Extraction = NotSampled | Threw | Handed(colors: seq<string>)

  /** `extractColorFromImage` reads one pixel at each of five points. */
  const SamplePoints: nat := 5

  predicate WellSampled(sample: Sample) {
    sample.Pixels? ==> |sample.pixels| == SamplePoints
  }

  /** A sample of five pixels yields between one and five colours. */
  lemma ColorCount(pixels: seq<Rgb>)
    requires |pixels| == SamplePoints
    ensures 1 <= |SampledColors(pixels)| <= SamplePoints
  {
    SampledColorsSpec(pixels);
    assert RgbHex(pixels[0]) in SampledColors(pixels);
  }

  class Canvas {
    var items: seq<Item>
    var active: Option<ItemId>
    var zoom: real
    var colorPicker: bool
    var typoPicker: bool
    var colors: seq<string>
    var typography: seq<FontStyle>

    /** The zoom stays within its clamp, at most one picker is on, and no
        item has a negative z-index. */
    ghost predicate Valid()
      reads this
    {
      && MinZoom <= zoom <= MaxZoom
      && !(colorPicker && typoPicker)
      && forall i :: 0 <= i < |items| ==> items[i].zIndex >= 0
    }

    constructor ()
      ensures Valid()
      ensures items == [] && active == None && zoom == 1.0
      ensures !colorPicker && !typoPicker && colors == [] && typography == []
    {
      items, active, zoom := [], None, 1.0;
      colorPicker, typoPicker := false, false;
      colors, typography := [], [];
    }

    /** The effect that fills an empty canvas with the selected images when
        it opens; a canvas that already holds items is left alone. */
    method LoadSelected(isOpen: bool, selected: seq<Image>, nows: seq<nat>, rand: seq<(real, real)>)
      requires Valid() && |nows| == |selected| && |rand| == |selected| && AllRandom(rand)
      modifies this
      ensures Valid()
      ensures var loaded := LoadItems(selected, nows, rand);
              items == if isOpen && |selected| > 0 && old(items) == [] && loaded != [] then loaded else old(items)
      ensures active == old(active) && zoom == old(zoom) && colors == old(colors) && typography == old(typography)
      ensures colorPicker == old(colorPicker) && typoPicker == old(typoPicker)
    {
      if isOpen && |selected| > 0 {
        if |items| == 0 {
          var loaded := LoadItems(selected, nows, rand);
          LoadItemsSound(selected, nows, rand);
          if |loaded| > 0 {
            items := loaded;
          }
        }
      }
    }

    /** `addImageToCanvas`: the new item goes last, with the item count as
        its z-index. */
    method AddImage(c: Candidate, now: nat, rx: real, ry: real)
      requires Valid() && IsRandom(rx) && IsRandom(ry)
      modifies this
      ensures Valid()
      ensures items == old(items) + [NewImageItem(c, now, rx, ry, |old(items)|)]
      ensures active == old(active) && zoom == old(zoom) && colors == old(colors) && typography == old(typography)
      ensures colorPicker == old(colorPicker) && typoPicker == old(typoPicker)
    {
      items := items + [NewImageItem(c, now, rx, ry, |items|)];
    }

    /** `handleDrag`: the dragged item follows the mouse. */
    method Drag(id: ItemId, p: Point)
      requires Valid()
      modifies this
      ensures Valid()
      ensures items == MoveTo(old(items), id, p)
      ensures active == old(active) && zoom == old(zoom) && colors == old(colors) && typography == old(typography)
      ensures colorPicker == old(colorPicker) && typoPicker == old(typoPicker)
    {
      items := MoveTo(items, id, p);
    }

    /** `removeItem`: the item goes, and so does the selection if it was on it. */
    method Remove(id: ItemId)
      requires Valid()
      modifies this
      ensures Valid()
      ensures items == Without(old(items), id)
      ensures active == if old(active) == Some(id) then None else old(active)
      ensures zoom == old(zoom) && colors == old(colors) && typography == old(typography)
      ensures colorPicker == old(colorPicker) && typoPicker == old(typoPicker)
    {
      var before := items;
      items := Without(items, id);
      forall i | 0 <= i < |items| ensures items[i].zIndex >= 0 {
        assert items[i] in before;
      }
      if active == Some(id) {
        active := None;
      }
    }

    /** `activateItem`: select the item and bring it in front of all others. */
    method Activate(id: ItemId)
      requires Valid()
      modifies this
      ensures Valid()
      ensures active == Some(id)
      ensures items == BringToFront(old(items), id)
      ensures zoom == old(zoom) && colors == old(colors) && typography == old(typography)
      ensures colorPicker == old(colorPicker) && typoPicker == old(typoPicker)
    {
      active := Some(id);
      items := BringToFront(items, id);
    }

    /** `duplicateItem`: the copy of the `k`-th item is appended on top. */
    method Duplicate(k: nat, now: nat)
      requires Valid() && k < |items|
      modifies this
      ensures Valid()
      ensures items == old(items) + [DuplicateOf(old(items)[k], old(items), now)]
      ensures active == old(active) && zoom == old(zoom) && colors == old(colors) && typography == old(typography)
      ensures colorPicker == old(colorPicker) && typoPicker == old(typoPicker)
    {
      items := items + [DuplicateOf(items[k], items, now)];
    }

    /** `clearCanvas`: only when the user confirms the dialog. */
    method Clear(confirmed: bool)
      requires Valid()
      modifies this
      ensures Valid()
      ensures confirmed ==> items == [] && active == None
      ensures !confirmed ==> items == old(items) && active == old(active)
      ensures zoom == old(zoom) && colors == old(colors) && typography == old(typography)
      ensures colorPicker == old(colorPicker) && typoPicker == old(typoPicker)
    {
      if confirmed {
        items := [];
        active := None;
      }
    }

    /** `handleZoom`: step the zoom and clamp it to [0.5, 2]. */
    method Zoom(delta: real)
      requires Valid()
      modifies this
      ensures Valid()
      ensures zoom == ClampZoom(old(zoom) + delta)
      ensures items == old(items) && active == old(active) && colors == old(colors) && typography == old(typography)
      ensures colorPicker == old(colorPicker) && typoPicker == old(typoPicker)
    {
      zoom := ClampZoom(zoom + delta);
    }

    /** `handleColorPickerClick`: flip the colour picker; turning either on
        turns the typography picker off. */
    method ToggleColorPicker()
      requires Valid()
      modifies this
      ensures Valid()
      ensures colorPicker == !old(colorPicker) && !typoPicker
      ensures items == old(items) && active == old(active) && zoom == old(zoom)
      ensures colors == old(colors) && typography == old(typography)
    {
      colorPicker := !colorPicker;
      if typoPicker {
        typoPicker := false;
      }
    }

    /** `handleTypoPickerClick`, symmetric to the colour picker. */
    method ToggleTypoPicker()
      requires Valid()
      modifies this
      ensures Valid()
      ensures typoPicker == !old(typoPicker) && !colorPicker
      ensures items == old(items) && active == old(active) && zoom == old(zoom)
      ensures colors == old(colors) && typography == old(typography)
    {
      typoPicker := !typoPicker;
      if colorPicker {
        colorPicker := false;
      }
    }

    /** `extractColorFromImage`: the distinct colours sampled from the image
        are appended to the extracted colours and handed on. Without an
        image element nothing happens; a pixel read that throws leaves every
        field as it was. */
    method ExtractColorFromImage(sample: Sample) returns (outcome: Extraction)
      requires Valid() && WellSampled(sample)
      modifies this
      ensures Valid()
      ensures sample.NoElement? ==> outcome == NotSampled && colors == old(colors)
      ensures sample.Blocked? ==> outcome == Threw && colors == old(colors)
      ensures sample.Pixels? ==>
                && outcome == Handed(SampledColors(sample.pixels))
                && colors == old(colors) + SampledColors(sample.pixels)
      ensures items == old(items) && active == old(active) && zoom == old(zoom) && typography == old(typography)
      ensures colorPicker == old(colorPicker) && typoPicker == old(typoPicker)
    {
      if sample.Pixels? {
        var unique := SampledColors(sample.pixels);
        colors := colors + unique;
        outcome := Handed(unique);
      } else {
        outcome := if sample.NoElement? then NotSampled else Threw;
      }
    }

    /** `extractTypography`: append the three preset styles and turn the
        typography picker off. */
    method ExtractTypography()
      requires Valid()
      modifies this
      ensures Valid()
      ensures typography == old(typography) + TypographyPresets && !typoPicker
      ensures items == old(items) && active == old(active) && zoom == old(zoom) && colors == old(colors)
      ensures colorPicker == old(colorPicker)
    {
      typography := typography + TypographyPresets;
      typoPicker := false;
    }

    /** A click on item `id`: with the colour picker on, extract colours and
        turn the picker off (unless the extraction threw); else with the
        typography picker on, extract typography; else select the item. */
    method ClickItem(id: ItemId, sample: Sample) returns (outcome: Extraction)
      requires Valid() && WellSampled(sample)
      modifies this
      ensures Valid()
      ensures old(colorPicker) ==>
                && outcome == (match sample
                               case NoElement => NotSampled
                               case Blocked => Threw
                               case Pixels(ps) => Handed(SampledColors(ps)))
                && colors == old(colors) + (if sample.Pixels? then SampledColors(sample.pixels) else [])
                && colorPicker == sample.Blocked?
                && items == old(items) && active == old(active) && typography == old(typography)
      ensures !old(colorPicker) && old(typoPicker) ==>
                && outcome == NotSampled
                && typography == old(typography) + TypographyPresets && !typoPicker
                && items == old(items) && active == old(active) && colors == old(colors)
      ensures !old(colorPicker) && !old(typoPicker) ==>
                && outcome == NotSampled
                && active == Some(id) && items == BringToFront(old(items), id)
                && colors == old(colors) && typography == old(typography)
      ensures zoom == old(zoom)
      ensures !old(colorPicker) ==> colorPicker == old(colorPicker)
      ensures old(colorPicker) || !old(typoPicker) ==> typoPicker == old(typoPicker)
    {
      if colorPicker {
        outcome := ExtractColorFromImage(sample);
        if !outcome.Threw? {
          colorPicker := false;
        }
      } else if typoPicker {
        ExtractTypography();
        outcome := NotSampled;
      } else {
        Activate(id);
        outcome := NotSampled;
      }
    }
  }
}
