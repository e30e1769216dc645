/** The values of the design canvas (src/components/DesignCanvas.jsx) and the
    pure transforms its handlers apply to the item list: the `map`, `filter`
    and spread expressions, the highest-z computation, zoom clamping, and the
    RGB-to-hex step of colour extraction. */
module CanvasModel {
  import opened Text
  import opened Seqs
  import opened ChatModel

  datatype Point = Point(x: real, y: real)

  datatype Size = Size(width: int, height: int)

  /** `item-${Date.now()}` (Stamped) or `item-${Date.now()}-${index}`
      (StampedAt). Nothing makes these unique: two items stamped in the same
      millisecond share an id. */
  datatype ItemId = Stamped(stamp: nat) | StampedAt(stamp: nat, index: nat)

  /** What an item is drawn from: an address, or, when a record offers
      neither `image` nor `url`, the record itself (`image.image || image.url
      || image`). */
  datatype Source = Link(url: string) | WholeRecord(record: Image)

  datatype Item = Item(
    id: ItemId,
    kind: string,
    src: Source,
    title: string,
    position: Point,
    size: Size,
    rotation: int,
    zIndex: int)

  /** The argument of `addImageToCanvas`: a bare address or an image record. */
  datatype Candidate = Plain(address: string) | Record(img: Image)

  newtype byte = x: int | 0 <= x < 256

  /** The red, green and blue bytes of one sampled pixel. */
  datatype Rgb = Rgb(r: byte, g: byte, b: byte)

  /** What the click handler finds for an item when the colour picker is on:
      no `<img>` element, an element whose pixels cannot be read (a
      cross-origin image taints the canvas and `getImageData` throws), or the
      pixels at the sample points. */
  datatype Sample = NoElement | Blocked | Pixels(pixels: seq<Rgb>)

  datatype FontStyle = FontStyle(name: string, family: string, weight: nat, size: string)

  const DefaultTitle: string := "Canvas Image"
  const ImageKind: string := "image"
  const PlacedSize: Size := Size(200, 200)
  const DuplicateOffset: real := 20.0
  const MinZoom: real := 0.5
  const MaxZoom: real := 2.0

  /** The three preset styles that the simulated typography extraction adds. */
  const TypographyPresets: seq<FontStyle> := [
    FontStyle("Heading", "Inter", 700, "24px"),
    FontStyle("Subheading", "Inter", 600, "18px"),
    FontStyle("Body Text", "Inter", 400, "16px")
  ]

  /** `Math.random()` yields values in [0, 1). */
  predicate IsRandom(r: real) {
    0.0 <= r < 1.0
  }

  /** `x: Math.random() * (canvasSize.width/2 - 200) + 100`, likewise for y,
      on the 1200 x 800 canvas: the factors are 1200/2 - 200 = 400 and
      800/2 - 200 = 200. New items land in the upper-left quarter. */
  function RandomPosition(rx: real, ry: real): (p: Point)
    requires IsRandom(rx) && IsRandom(ry)
    ensures 100.0 <= p.x < 500.0 && 100.0 <= p.y < 300.0
  {
    Point(rx * 400.0 + 100.0, ry * 200.0 + 100.0)
  }

  // ---------------------------------------------------------------- loading

  /** `img.image || img.url`. */
  function SelectedSrc(img: Image): string {
    if img.image != "" then img.image else img.url
  }

  function LoadedItem(img: Image, now: nat, index: nat, rx: real, ry: real): Item
    requires IsRandom(rx) && IsRandom(ry)
  {
    Item(StampedAt(now, index), ImageKind, Link(SelectedSrc(img)),
         if img.title != "" then img.title else DefaultTitle,
         RandomPosition(rx, ry), PlacedSize, 0, index)
  }

  predicate AllRandom(rand: seq<(real, real)>) {
    forall i :: 0 <= i < |rand| ==> IsRandom(rand[i].0) && IsRandom(rand[i].1)
  }

  /** The indices, from `from` on, of the selected images that have an
      address: the entries the `map` does not turn into `null`, so the ones
      the `filter` keeps, in order. */
  function Addressed(selected: seq<Image>, from: nat): (ks: seq<nat>)
    requires from <= |selected|
    ensures |ks| <= |selected| - from
    decreases |selected| - from
  {
    if from == |selected| then []
    else (if SelectedSrc(selected[from]) != "" then [from] else []) + Addressed(selected, from + 1)
  }

  /** The indices kept are exactly those of images with an address, each
      once and in increasing order. */
  lemma {:induction false} AddressedSpec(selected: seq<Image>, from: nat)
    requires from <= |selected|
    ensures forall j :: 0 <= j < |Addressed(selected, from)| ==>
              from <= Addressed(selected, from)[j] < |selected| && SelectedSrc(selected[Addressed(selected, from)[j]]) != ""
    ensures forall i, j :: 0 <= i < j < |Addressed(selected, from)| ==> Addressed(selected, from)[i] < Addressed(selected, from)[j]
    ensures forall k :: from <= k < |selected| && SelectedSrc(selected[k]) != "" ==> k in Addressed(selected, from)
    decreases |selected| - from
  {
    if from < |selected| {
      AddressedSpec(selected, from + 1);
    }
  }

  /** The canvas items built when the canvas opens: an image without an
      address is dropped (the `map` yields `null`, the `filter` removes it);
      the others keep their index in the selection as their z-index and in
      their id. `Date.now()` is read once per image, inside the `map`, so
      `nows[k]` is the time stamp read for image `k`. */
  function LoadItems(selected: seq<Image>, nows: seq<nat>, rand: seq<(real, real)>): (r: seq<Item>)
    requires |nows| == |selected| && |rand| == |selected| && AllRandom(rand)
    ensures |r| <= |selected|
  {
    var ks := Addressed(selected, 0);
    AddressedSpec(selected, 0);
    seq(|ks|, j requires 0 <= j < |ks| => LoadedItem(selected[ks[j]], nows[ks[j]], ks[j], rand[ks[j]].0, rand[ks[j]].1))
  }

  /** Every loaded item is built from a selected image with an address, at
      that image's index, and the z-indices increase along the list; so ids
      are pairwise distinct whatever time stamps were read. */
  lemma LoadItemsSound(selected: seq<Image>, nows: seq<nat>, rand: seq<(real, real)>)
    requires |nows| == |selected| && |rand| == |selected| && AllRandom(rand)
    ensures var r := LoadItems(selected, nows, rand);
            forall j :: 0 <= j < |r| ==>
              var k := r[j].zIndex;
              && 0 <= k < |selected| && SelectedSrc(selected[k]) != ""
              && r[j] == LoadedItem(selected[k], nows[k], k, rand[k].0, rand[k].1)
    ensures var r := LoadItems(selected, nows, rand);
            forall i, j :: 0 <= i < j < |r| ==> r[i].zIndex < r[j].zIndex && r[i].id != r[j].id
  {
    AddressedSpec(selected, 0);
  }

  /** No selected image with an address is lost on the way to the canvas. */
  lemma LoadItemsComplete(selected: seq<Image>, nows: seq<nat>, rand: seq<(real, real)>, k: nat)
    requires |nows| == |selected| && |rand| == |selected| && AllRandom(rand) && k < |selected|
    requires SelectedSrc(selected[k]) != ""
    ensures exists j :: 0 <= j < |LoadItems(selected, nows, rand)| && LoadItems(selected, nows, rand)[j].zIndex == k
  {
    AddressedSpec(selected, 0);
    var ks := Addressed(selected, 0);
    var j :| 0 <= j < |ks| && ks[j] == k;
    assert LoadItems(selected, nows, rand)[j].zIndex == k;
  }

  // ---------------------------------------------------------------- adding

  function SourceOf(c: Candidate): Source {
    match c
    case Plain(a) => Link(a)
    case Record(img) =>
      if img.image != "" then Link(img.image)
      else if img.url != "" then Link(img.url)
      else WholeRecord(img)
  }

  /** `image.title || 'Canvas Image'`; a bare address has no title. */
  function TitleOf(c: Candidate): (t: string)
    ensures t != ""
  {
    match c
    case Plain(_) => DefaultTitle
    case Record(img) => if img.title != "" then img.title else DefaultTitle
  }

  /** The item `addImageToCanvas` appends to a list of `count` items. */
  function NewImageItem(c: Candidate, now: nat, rx: real, ry: real, count: nat): (it: Item)
    requires IsRandom(rx) && IsRandom(ry)
    ensures it.id == Stamped(now) && it.kind == ImageKind
    ensures it.size == Size(200, 200) && it.rotation == 0 && it.zIndex == count
    ensures c.Plain? ==> it.src == Link(c.address) && it.title == "Canvas Image"
    ensures c.Record? && c.img.image != "" ==> it.src == Link(c.img.image)
    ensures c.Record? && c.img.image == "" && c.img.url != "" ==> it.src == Link(c.img.url)
    ensures c.Record? && c.img.image == "" && c.img.url == "" ==> it.src == WholeRecord(c.img)
    ensures c.Record? ==> it.title == if c.img.title != "" then c.img.title else "Canvas Image"
    ensures 100.0 <= it.position.x < 500.0 && 100.0 <= it.position.y < 300.0
  {
    Item(Stamped(now), ImageKind, SourceOf(c), TitleOf(c), RandomPosition(rx, ry), PlacedSize, 0, count)
  }

  // ---------------------------------------------------------------- z-order

  /** `Math.max(...items.map(item => item.zIndex), 0)`. */
  function MaxZ(items: seq<Item>): (m: int)
    ensures m >= 0
    ensures forall i :: 0 <= i < |items| ==> items[i].zIndex <= m
    ensures m == 0 || exists i :: 0 <= i < |items| && items[i].zIndex == m
  {
    if items == [] then 0
    else
      var m := MaxZ(items[1..]);
      assert forall i :: 1 <= i < |items| ==> items[i] == items[1..][i - 1];
      if items[0].zIndex > m then items[0].zIndex else m
  }

  /** The `map` of `activateItem`: items with id `id` get z-index `z`. */
  function Raise(items: seq<Item>, id: ItemId, z: int): (r: seq<Item>)
    ensures |r| == |items|
    ensures forall i :: 0 <= i < |items| ==>
              r[i] == if items[i].id == id then items[i].(zIndex := z) else items[i]
  {
    if items == [] then []
    else [if items[0].id == id then items[0].(zIndex := z) else items[0]] + Raise(items[1..], id, z)
  }

  /** Bringing the item `id` to the front. */
  function BringToFront(items: seq<Item>, id: ItemId): (r: seq<Item>)
    ensures |r| == |items|
    ensures forall i, j :: 0 <= i < |items| && 0 <= j < |items| && items[i].id == id && items[j].id != id ==>
              r[i].zIndex > r[j].zIndex
    ensures forall i :: 0 <= i < |items| && items[i].id == id ==>
              r[i] == items[i].(zIndex := r[i].zIndex) && r[i].zIndex > items[i].zIndex
    ensures forall j :: 0 <= j < |items| && items[j].id != id ==> r[j] == items[j]
  {
    Raise(items, id, MaxZ(items) + 1)
  }

  /** After bringing an item to the front, it holds the highest z-index, one
      above the previous highest; so selecting it again raises it once more. */
  lemma {:induction false} BringToFrontMax(items: seq<Item>, id: ItemId, i: nat)
    requires i < |items| && items[i].id == id
    ensures MaxZ(BringToFront(items, id)) == MaxZ(items) + 1
    ensures BringToFront(items, id)[i].zIndex == MaxZ(items) + 1
  {
    var r := BringToFront(items, id);
    var m := MaxZ(items) + 1;
    assert r[i].zIndex == m;
    MaxZIsBound(r, m);
  }

  /** An upper bound on every z-index that some item attains is the maximum. */
  lemma {:induction false} MaxZIsBound(items: seq<Item>, m: int)
    requires m >= 0
    requires forall i :: 0 <= i < |items| ==> items[i].zIndex <= m
    requires exists i :: 0 <= i < |items| && items[i].zIndex == m
    ensures MaxZ(items) == m
  {
    var i :| 0 <= i < |items| && items[i].zIndex == m;
    assert MaxZ(items) >= items[i].zIndex;
  }

  // ---------------------------------------------------------------- drag, remove

  /** The `map` of `handleDrag`: items with id `id` move to `p`. */
  function MoveTo(items: seq<Item>, id: ItemId, p: Point): (r: seq<Item>)
    ensures |r| == |items|
    ensures forall i :: 0 <= i < |items| ==>
              r[i] == if items[i].id == id then items[i].(position := p) else items[i]
  {
    if items == [] then []
    else [if items[0].id == id then items[0].(position := p) else items[0]] + MoveTo(items[1..], id, p)
  }

  /** Drag samples do not accumulate: only the latest mouse position counts. */
  lemma MoveToLastSampleWins(items: seq<Item>, id: ItemId, p: Point, q: Point)
    ensures MoveTo(MoveTo(items, id, p), id, q) == MoveTo(items, id, q)
  {
  }

  /** The `filter` of `removeItem`. */
  function Without(items: seq<Item>, id: ItemId): (r: seq<Item>)
    ensures |r| <= |items|
    ensures forall x :: x in r <==> x in items && x.id != id
  {
    if items == [] then []
    else (if items[0].id == id then [] else [items[0]]) + Without(items[1..], id)
  }

  /** Removal keeps the other items in their original order. */
  lemma {:induction false} WithoutConcat(a: seq<Item>, b: seq<Item>, id: ItemId)
    ensures Without(a + b, id) == Without(a, id) + Without(b, id)
    decreases |a|
  {
    if a == [] {
      assert a + b == b;
    } else {
      assert (a + b)[1..] == a[1..] + b;
      WithoutConcat(a[1..], b, id);
    }
  }

  /** Removing an id that no item has changes nothing. */
  lemma {:induction false} WithoutAbsent(items: seq<Item>, id: ItemId)
    requires forall i :: 0 <= i < |items| ==> items[i].id != id
    ensures Without(items, id) == items
    decreases |items|
  {
    if items != [] {
      WithoutAbsent(items[1..], id);
    }
  }

  /** Removing twice is removing once. */
  lemma WithoutIdempotent(items: seq<Item>, id: ItemId)
    ensures Without(Without(items, id), id) == Without(items, id)
  {
    var r := Without(items, id);
    forall i | 0 <= i < |r| ensures r[i].id != id {
      assert r[i] in r;
    }
    WithoutAbsent(r, id);
  }

  // ---------------------------------------------------------------- duplicate

  /** The copy `duplicateItem` appends: the item with a new id, moved by
      (+20, +20), and raised above every current item. */
  function DuplicateOf(item: Item, items: seq<Item>, now: nat): (d: Item)
    ensures d.id == Stamped(now)
    ensures d.position == Point(item.position.x + 20.0, item.position.y + 20.0)
    ensures forall i :: 0 <= i < |items| ==> d.zIndex > items[i].zIndex
    ensures d.zIndex >= 1
    ensures d.(id := item.id, position := item.position, zIndex := item.zIndex) == item
  {
    item.(id := Stamped(now),
          position := Point(item.position.x + DuplicateOffset, item.position.y + DuplicateOffset),
          zIndex := MaxZ(items) + 1)
  }

  // ---------------------------------------------------------------- zoom

  function Min(a: real, b: real): real { if a <= b then a else b }

  function Max(a: real, b: real): real { if a >= b then a else b }

  /** `Math.min(Math.max(0.5, z), 2)`. */
  function ClampZoom(z: real): (r: real)
    ensures MinZoom <= r <= MaxZoom
    ensures MinZoom <= z <= MaxZoom ==> r == z
    ensures z < MinZoom ==> r == MinZoom
    ensures z > MaxZoom ==> r == MaxZoom
  {
    Min(Max(MinZoom, z), MaxZoom)
  }

  // ---------------------------------------------------------------- colours

  /** The two hexadecimal digits of a byte. */
  function HighNibble(b: byte): (d: nat)
    ensures d < 16
  {
    b as nat / 16
  }

  function LowNibble(b: byte): (d: nat)
    ensures d < 16
  {
    b as nat % 16
  }

  /** One channel as `pixel[k].toString(16).padStart(2, '0')`: always two
      lower-case digits, high one first. */
  function ChannelHex(b: byte): (s: string)
    ensures s == [HexDigitChar(HighNibble(b)), HexDigitChar(LowNibble(b))]
  {
    var n := b as nat;
    assert n >= 16 ==> ToHexString(n) == ToHexString(n / 16) + [HexDigitChar(n % 16)];
    PadStart(ToHexString(n), 2, '0')
  }

  predicate IsLowerHexDigit(c: char) {
    ('0' <= c <= '9') || ('a' <= c <= 'f')
  }

  /** Seven characters: `#` and six lower-case hexadecimal digits. */
  predicate IsHexColor(s: string) {
    |s| == 7 && s[0] == '#' && forall i :: 1 <= i < 7 ==> IsLowerHexDigit(s[i])
  }

  /** `#rrggbb` in lower case: the hexadecimal colour notation of CSS Color
      Module Level 4, section 5.2, as the sampling step writes it. */
  function RgbHex(c: Rgb): (s: string) {
    ['#', HexDigitChar(HighNibble(c.r)), HexDigitChar(LowNibble(c.r)),
          HexDigitChar(HighNibble(c.g)), HexDigitChar(LowNibble(c.g)),
          HexDigitChar(HighNibble(c.b)), HexDigitChar(LowNibble(c.b))]
  }

  /** The colour string is `'#'` followed by each channel's padded
      `toString(16)`. */
  lemma RgbHexPadded(c: Rgb)
    ensures RgbHex(c) == "#" + ChannelHex(c.r) + ChannelHex(c.g) + ChannelHex(c.b)
  {
    var hr, hg, hb := ChannelHex(c.r), ChannelHex(c.g), ChannelHex(c.b);
    assert "#" + hr == ['#', hr[0], hr[1]];
    assert "#" + hr + hg == ['#', hr[0], hr[1], hg[0], hg[1]];
    assert "#" + hr + hg + hb == ['#', hr[0], hr[1], hg[0], hg[1], hb[0], hb[1]];
  }

  lemma RgbHexWellFormed(c: Rgb)
    ensures IsHexColor(RgbHex(c))
  {
    var s := RgbHex(c);
    forall i | 1 <= i < 7 ensures IsLowerHexDigit(s[i]) {
      assert IsHexDigit(s[i]) && !('A' <= s[i] <= 'F');
    }
  }

  function ParseChannel(hi: char, lo: char): byte
    requires IsHexDigit(hi) && IsHexDigit(lo)
  {
    (16 * HexDigitValue(hi) + HexDigitValue(lo)) as byte
  }

  /** Reads a `#rrggbb` colour back into its three bytes. */
  function ParseRgb(s: string): Option<Rgb> {
    if |s| == 7 && s[0] == '#' && forall i :: 1 <= i < 7 ==> IsHexDigit(s[i]) then
      Some(Rgb(ParseChannel(s[1], s[2]), ParseChannel(s[3], s[4]), ParseChannel(s[5], s[6])))
    else None
  }

  lemma ChannelRoundTrip(b: byte)
    ensures ParseChannel(HexDigitChar(HighNibble(b)), HexDigitChar(LowNibble(b))) == b
  {
    HexDigitRoundTrip(HighNibble(b));
    HexDigitRoundTrip(LowNibble(b));
  }

  /** The hex string of a pixel reads back as that pixel, so two different
      pixels never yield the same colour string. */
  lemma RgbHexRoundTrip(c: Rgb)
    ensures ParseRgb(RgbHex(c)) == Some(c)
  {
    ChannelRoundTrip(c.r);
    ChannelRoundTrip(c.g);
    ChannelRoundTrip(c.b);
  }

  lemma RgbHexInjective(c1: Rgb, c2: Rgb)
    requires RgbHex(c1) == RgbHex(c2)
    ensures c1 == c2
  {
    RgbHexRoundTrip(c1);
    RgbHexRoundTrip(c2);
  }

  /** `[...new Set(pixels.map(toHex))]`: the distinct colours found, in
      sampling order. */
  function SampledColors(pixels: seq<Rgb>): (r: seq<string>)
    ensures |r| <= |pixels|
  {
    DistinctKeys(pixels, RgbHex)
  }

  /** No colour twice, every colour a `#rrggbb` string, and the colour of
      every sampled pixel among them. */
  lemma SampledColorsSpec(pixels: seq<Rgb>)
    ensures Distinct(SampledColors(pixels))
    ensures forall c :: c in SampledColors(pixels) ==> IsHexColor(c)
    ensures forall i :: 0 <= i < |pixels| ==> RgbHex(pixels[i]) in SampledColors(pixels)
  {
    DistinctKeysSpec(pixels, RgbHex);
    forall c | c in SampledColors(pixels) ensures IsHexColor(c) {
      var i :| 0 <= i < |pixels| && RgbHex(pixels[i]) == c;
      RgbHexWellFormed(pixels[i]);
    }
  }

  /** Every colour found is the colour of a sampled pixel, and reads back
      as that pixel. */
  lemma SampledColorsAreSampled(pixels: seq<Rgb>, c: string)
    requires c in SampledColors(pixels)
    ensures exists i :: 0 <= i < |pixels| && RgbHex(pixels[i]) == c && ParseRgb(c) == Some(pixels[i])
  {
    DistinctKeysSpec(pixels, RgbHex);
    var i :| 0 <= i < |pixels| && RgbHex(pixels[i]) == c;
    RgbHexRoundTrip(pixels[i]);
  }
}
