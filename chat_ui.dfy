/** The dashboard component (src/ChatUI.jsx): the chat transcript, the
    design preferences, the palette, the asset-type switches and the
    moodboard selection, each `useState` hook a field of `Dashboard`, and
    the handlers that update them. The search request is an input: its
    reply, or its failure, is a parameter of `SendMessage`. */
module ChatUI {
  import opened Text
  import opened ChatModel
  import opened Seqs
  import opened Grouping
  import opened Palette
  import opened Selection

  // ------------------------------------------------------ the user's text

  const DefaultColor: string := "#000000"

  /** `` ` | ${name}: ${value}` `` when the preference is set, else nothing. */
  function Part(name: string, value: string, isSet: bool): string {
    if isSet then " | " + name + ": " + value else ""
  }

  /** The text of the user's message: the input followed by each set
      preference; the colour counts as set when it is not black. */
  function Compose(input: string, industry: string, font: string, style: string, color: string): (r: string)
    ensures input <= r
    ensures industry == "" && font == "" && style == "" && color == DefaultColor ==> r == input
  {
    input + Part("Industry", industry, industry != "") + Part("Font", font, font != "")
      + Part("Style", style, style != "") + Part("Color", color, color != DefaultColor)
  }

  /** How often `c` occurs in `s`. */
  function Occurrences(s: string, c: char): nat {
    if s == [] then 0 else Occurrences(s[..|s| - 1], c) + (if s[|s| - 1] == c then 1 else 0)
  }

  lemma {:induction false} OccurrencesConcat(a: string, b: string, c: char)
    ensures Occurrences(a + b, c) == Occurrences(a, c) + Occurrences(b, c)
    decreases |b|
  {
    if b == [] {
      assert a + b == a;
    } else {
      assert (a + b)[..|a + b| - 1] == a + b[..|b| - 1];
      OccurrencesConcat(a, b[..|b| - 1], c);
    }
  }

  lemma {:induction false} OccurrencesNone(s: string, c: char)
    requires c !in s
    ensures Occurrences(s, c) == 0
    decreases |s|
  {
    if s != [] {
      assert s[|s| - 1] in s;
      assert forall x :: x in s[..|s| - 1] ==> x in s;
      OccurrencesNone(s[..|s| - 1], c);
    }
  }

  lemma OccurrencesChar(x: char, c: char)
    ensures Occurrences([x], c) == if x == c then 1 else 0
  {
    assert [x][..0] == [];
  }

  lemma PartBars(name: string, value: string, isSet: bool)
    requires '|' !in name && '|' !in value
    ensures Occurrences(Part(name, value, isSet), '|') == if isSet then 1 else 0
  {
    if isSet {
      var sep := " | ";
      assert sep == [' '] + ['|'] + [' '];
      OccurrencesChar(' ', '|');
      OccurrencesChar('|', '|');
      OccurrencesConcat([' '], ['|'], '|');
      OccurrencesConcat([' '] + ['|'], [' '], '|');
      OccurrencesNone(name, '|');
      OccurrencesNone(": ", '|');
      OccurrencesNone(value, '|');
      OccurrencesConcat(sep, name, '|');
      OccurrencesConcat(sep + name, ": ", '|');
      OccurrencesConcat(sep + name + ": ", value, '|');
    } else {
      assert Part(name, value, isSet) == [];
    }
  }

  /** The count of preferences in the user's text: when neither the input
      nor a preference holds `|`, the text holds one `|` per preference
      that was set. */
  lemma ComposeBars(input: string, industry: string, font: string, style: string, color: string)
    requires '|' !in input && '|' !in industry && '|' !in font && '|' !in style && '|' !in color
    ensures Occurrences(Compose(input, industry, font, style, color), '|')
         == (if industry != "" then 1 else 0) + (if font != "" then 1 else 0)
          + (if style != "" then 1 else 0) + (if color != DefaultColor then 1 else 0)
  {
    var a := Part("Industry", industry, industry != "");
    var b := Part("Font", font, font != "");
    var c := Part("Style", style, style != "");
    var d := Part("Color", color, color != DefaultColor);
    OccurrencesNone(input, '|');
    PartBars("Industry", industry, industry != "");
    PartBars("Font", font, font != "");
    PartBars("Style", style, style != "");
    PartBars("Color", color, color != DefaultColor);
    OccurrencesConcat(input, a, '|');
    OccurrencesConcat(input + a, b, '|');
    OccurrencesConcat(input + a + b, c, '|');
    OccurrencesConcat(input + a + b + c, d, '|');
  }

  // ---------------------------------------------------- processed images

  /** The format of a search result: the server's `fileType` when given,
      otherwise derived from the ending of the source address. */
  function Classify(img: Image): (f: string)
    ensures img.fileType != "" ==> f == img.fileType
    ensures img.fileType == "" ==> f in {"vector", "psd", "image"}
    ensures img.fileType == "" ==> (f == "vector" <==> EndsWith(img.url, ".svg"))
    ensures img.fileType == "" && !EndsWith(img.url, ".svg") ==> (f == "psd" <==> EndsWith(img.url, ".psd"))
    ensures img.fileType == "" && !EndsWith(img.url, ".svg") && !EndsWith(img.url, ".psd") ==> f == "image"
  {
    if img.fileType != "" then img.fileType
    else if EndsWith(img.url, ".svg") then "vector"
    else if EndsWith(img.url, ".psd") then "psd"
    else "image"
  }

  /** `images.map(img => ({...img, format: …}))`. */
  function Process(images: seq<Image>): (r: seq<Image>)
    ensures |r| == |images|
    ensures forall i :: 0 <= i < |r| ==> r[i] == images[i].(format := Classify(images[i]))
  {
    seq(|images|, i requires 0 <= i < |images| => images[i].(format := Classify(images[i])))
  }

  /** The format does not depend on a previous format, so processing twice
      is processing once. */
  lemma ProcessIdempotent(images: seq<Image>)
    ensures Process(Process(images)) == Process(images)
  {
    var once := Process(images);
    forall i | 0 <= i < |once| ensures Classify(once[i]) == Classify(images[i]) {
      assert once[i].fileType == images[i].fileType && once[i].url == images[i].url;
    }
  }

  // ---------------------------------------------------------- messages

  const Greeting: string := "Hello! I'll help you create a design moodboard. What kind of project are you working on?"
  const ErrorText: string := "Sorry, I couldn't fetch design inspiration at the moment. Please try again."
  const SuggestionsHeading: string := "Design Suggestions"

  const ReplyFallback: string := "Design Inspiration"

  /** `img.category || 'Design Inspiration'`. */
  function ReplyCategory(img: Image): string {
    CategoryOf(img, ReplyFallback)
  }

  function CategoryMessage(category: string, images: seq<Image>): Message {
    Message(None, Bot, Some(category), Some(images), None, None)
  }

  /** A bot message for each category of `ks`, with its images. */
  function CategoryMessages(processed: seq<Image>, ks: seq<string>): (ms: seq<Message>)
    ensures |ms| == |ks|
    ensures forall i :: 0 <= i < |ks| ==> ms[i] == CategoryMessage(ks[i], Group(processed, ReplyCategory, ks[i]))
  {
    if ks == [] then []
    else [CategoryMessage(ks[0], Group(processed, ReplyCategory, ks[0]))] + CategoryMessages(processed, ks[1..])
  }

  /** One bot message per category, in order of first appearance. */
  function GroupMessages(processed: seq<Image>): (ms: seq<Message>)
    ensures |ms| == |DistinctKeys(processed, ReplyCategory)|
  {
    CategoryMessages(processed, DistinctKeys(processed, ReplyCategory))
  }

  /** The images the messages carry, one message after the other. */
  function ImagesOf(ms: seq<Message>): seq<Image> {
    if ms == [] then []
    else (if ms[0].images.Some? then ms[0].images.value else []) + ImagesOf(ms[1..])
  }

  /** The palette after a reply: the extracted colours when there are any,
      else the server's palette when it is non-empty, else as it was. */
  function PaletteAfter(extracted: seq<string>, server: Option<seq<string>>, current: seq<string>): (p: seq<string>)
    ensures extracted != [] ==> p == extracted
    ensures extracted == [] ==> p == (if server.Some? && server.value != [] then server.value else current)
  {
    if |extracted| > 0 then extracted
    else if server.Some? && |server.value| > 0 then server.value
    else current
  }

  /** The palette the suggestions message carries. */
  function SuggestedPalette(extracted: seq<string>, server: Option<seq<string>>): Option<seq<string>> {
    if |extracted| > 0 then Some(extracted) else server
  }

  function SuggestionsMessage(text: string, palette: Option<seq<string>>): Message {
    Message(Some(text), Bot, None, None, palette, Some(SuggestionsHeading))
  }

  /** The search reply: the request failed, or the reply's fields. */
  datatype SearchReply =
    | SearchFailed
    | SearchData(images: Option<seq<Image>>, aiSuggestions: Option<string>,
                 relatedTerms: Option<seq<string>>, colorPalette: Option<seq<string>>)

  /** The messages a reply appends after the user's message. A failed
      request, a reply without suggestion text (scanning it throws), a reply
      without an image list (mapping it throws) and a reply with an image
      whose category is an inherited property name (grouping throws) each
      end in the error message. */
  function ReplyMessages(reply: SearchReply, current: seq<string>): seq<Message> {
    match reply
    case SearchFailed => [TextMessage(ErrorText, Bot)]
    case SearchData(images, ai, _, server) =>
      if ai.None? || images.None? || GroupingThrows(Process(images.value), ReplyFallback) then
        [TextMessage(ErrorText, Bot)]
      else
        var extracted := ExtractColorPalette(ai.value, current);
        GroupMessages(Process(images.value)) + [SuggestionsMessage(ai.value, SuggestedPalette(extracted, server))]
  }

  /** A reply that gets through the request, the scan, the `map` and the
      grouping without throwing. */
  predicate ReplyComplete(reply: SearchReply) {
    && reply.SearchData? && reply.aiSuggestions.Some? && reply.images.Some?
    && !GroupingThrows(Process(reply.images.value), ReplyFallback)
  }

  /** The palette after a reply. */
  function ReplyPalette(reply: SearchReply, current: seq<string>): seq<string> {
    match reply
    case SearchFailed => current
    case SearchData(_, ai, _, server) =>
      if ai.None? then current else PaletteAfter(ExtractColorPalette(ai.value, current), server, current)
  }

  /** The related terms after a reply. */
  function ReplyTerms(reply: SearchReply, current: seq<string>): seq<string> {
    if reply.SearchData? && reply.relatedTerms.Some? && |reply.relatedTerms.value| > 0 then reply.relatedTerms.value
    else current
  }

  /** On success the reply adds one bot message per category and one
      suggestions message; otherwise exactly one error message. Every
      message a reply adds is the bot's. */
  lemma ReplyMessageCount(reply: SearchReply, current: seq<string>)
    ensures var ms := ReplyMessages(reply, current);
            && (forall i :: 0 <= i < |ms| ==> ms[i].sender == Bot)
            && (if ReplyComplete(reply)
                then |ms| == |DistinctKeys(Process(reply.images.value), ReplyCategory)| + 1
                     && ms[|ms| - 1].heading == Some(SuggestionsHeading)
                else ms == [TextMessage(ErrorText, Bot)])
  {
  }

  /** An image filed under an inherited property name such as
      `constructor` makes the grouping throw, so a reply carrying one adds
      only the error message, although its related terms and palette have
      already been taken. */
  lemma InheritedCategoryFails(img: Image, ai: string, current: seq<string>)
    requires img.category == "constructor"
    ensures var reply := SearchData(Some([img]), Some(ai), None, None);
            && ReplyMessages(reply, current) == [TextMessage(ErrorText, Bot)]
            && ReplyPalette(reply, current) == ExtractColorPalette(ai, current)
  {
    var processed := Process([img]);
    assert CategoryOf(processed[0], ReplyFallback) in InheritedNames;
  }

  /** The parts of a message the chat makes clickable: every category
      message has them, the suggestions message has them exactly when it
      carries a non-empty palette, and a plain text message (the user's, or
      the error message) has none. */
  lemma MessageKindsInteractive(category: string, images: seq<Image>, text: string,
                                palette: Option<seq<string>>, sender: Sender)
    ensures HasInteractiveElements(CategoryMessage(category, images))
    ensures HasInteractiveElements(SuggestionsMessage(text, palette)) <==> palette.Some? && palette.value != []
    ensures !HasInteractiveElements(TextMessage(text, sender))
  {
  }

  /** While the palette is not empty, every message a complete reply adds
      is interactive; the single message of any other reply is not. */
  lemma ReplyInteractive(reply: SearchReply, current: seq<string>)
    requires current != []
    ensures var ms := ReplyMessages(reply, current);
            && (ReplyComplete(reply) ==> forall i :: 0 <= i < |ms| ==> HasInteractiveElements(ms[i]))
            && (!ReplyComplete(reply) ==> |ms| == 1 && !HasInteractiveElements(ms[0]))
  {
    var ms := ReplyMessages(reply, current);
    if ReplyComplete(reply) {
      var processed := Process(reply.images.value);
      var text := reply.aiSuggestions.value;
      var extracted := ExtractColorPalette(text, current);
      var gs := GroupMessages(processed);
      var last := SuggestionsMessage(text, SuggestedPalette(extracted, reply.colorPalette));
      assert ms == gs + [last];
      forall i | 0 <= i < |ms| ensures HasInteractiveElements(ms[i]) {
        if i < |gs| {
          assert ms[i] == gs[i];
        } else {
          assert ms[i] == last;
        }
      }
    }
  }

  lemma {:induction false} ImagesOfCategories(processed: seq<Image>, ks: seq<string>)
    ensures ImagesOf(CategoryMessages(processed, ks)) == Gather(processed, ReplyCategory, ks)
    decreases |ks|
  {
    if ks != [] {
      var ms := CategoryMessages(processed, ks);
      assert ms[1..] == CategoryMessages(processed, ks[1..]);
      ImagesOfCategories(processed, ks[1..]);
    }
  }

  /** The category messages of a reply carry every processed image exactly
      once. */
  lemma GroupMessagesPartition(processed: seq<Image>)
    ensures multiset(ImagesOf(GroupMessages(processed))) == multiset(processed)
  {
    ImagesOfCategories(processed, DistinctKeys(processed, ReplyCategory));
    GroupsPartition(processed, ReplyCategory);
  }

  /** The message of a category holds exactly the processed images of that
      category, in reply order. */
  lemma GroupMessageMembers(processed: seq<Image>, i: nat, img: Image)
    requires i < |GroupMessages(processed)|
    ensures var m := GroupMessages(processed)[i];
            && m.categoryTitle.Some? && m.images.Some?
            && (img in m.images.value <==> img in processed && ReplyCategory(img) == m.categoryTitle.value)
  {
    var k := DistinctKeys(processed, ReplyCategory)[i];
    GroupMembers(processed, ReplyCategory, k, img);
  }

  /** Every category message has a non-empty title, and no two share one. */
  lemma GroupMessageTitles(processed: seq<Image>)
    ensures forall i :: 0 <= i < |GroupMessages(processed)| ==>
              GroupMessages(processed)[i].categoryTitle.Some? && GroupMessages(processed)[i].categoryTitle.value != ""
    ensures forall i, j :: 0 <= i < j < |GroupMessages(processed)| ==>
              GroupMessages(processed)[i].categoryTitle != GroupMessages(processed)[j].categoryTitle
  {
    DistinctKeysSpec(processed, ReplyCategory);
    var ks := DistinctKeys(processed, ReplyCategory);
    forall i | 0 <= i < |ks| ensures ks[i] != "" {
      assert ks[i] in ks;
    }
  }

  /** While the palette is not empty, scanning the suggestions always yields
      a non-empty list, so the server's palette is never consulted: the
      palette becomes the scanned list and the suggestions message carries
      it. */
  lemma ServerPaletteUnused(text: string, server: Option<seq<string>>, current: seq<string>)
    requires current != []
    ensures var extracted := ExtractColorPalette(text, current);
            && extracted != []
            && PaletteAfter(extracted, server, current) == extracted
            && SuggestedPalette(extracted, server) == Some(extracted)
  {
  }

  /** A reply never empties a non-empty palette. */
  lemma ReplyPaletteKept(reply: SearchReply, current: seq<string>)
    requires current != []
    ensures ReplyPalette(reply, current) != []
  {
  }

  /** The `forEach` over the grouped images, one message per category. */
  method BuildGroupMessages(processed: seq<Image>) returns (added: seq<Message>)
    ensures added == GroupMessages(processed)
  {
    var ks, groups := GroupBy(processed, ReplyCategory);
    added := [];
    var i := 0;
    while i < |ks|
      invariant 0 <= i <= |ks| && |added| == i
      invariant forall j :: 0 <= j < i ==> added[j] == CategoryMessage(ks[j], groups[ks[j]])
    {
      added := added + [CategoryMessage(ks[i], groups[ks[i]])];
      i := i + 1;
    }
  }

  /** The part of `sendMessage` after the request: the messages the reply
      adds, and the palette and related terms it leaves. */
  method ReceiveReply(reply: SearchReply, current: seq<string>, currentTerms: seq<string>)
    returns (added: seq<Message>, palette: seq<string>, terms: seq<string>)
    ensures added == ReplyMessages(reply, current)
    ensures palette == ReplyPalette(reply, current)
    ensures terms == ReplyTerms(reply, currentTerms)
  {
    added, palette, terms := [], current, currentTerms;
    match reply {
      case SearchFailed =>
        added := [TextMessage(ErrorText, Bot)];
      case SearchData(images, ai, newTerms, server) =>
        if newTerms.Some? && |newTerms.value| > 0 {
          terms := newTerms.value;
        }
        if ai.None? {
          added := [TextMessage(ErrorText, Bot)];
        } else {
          var extracted := ExtractColorPalette(ai.value, palette);
          palette := PaletteAfter(extracted, server, palette);
          if images.None? {
            added := [TextMessage(ErrorText, Bot)];
          } else {
            var processed := Process(images.value);
            if GroupingThrows(processed, ReplyFallback) {
              added := [TextMessage(ErrorText, Bot)];
            } else {
              var groups := BuildGroupMessages(processed);
              added := groups + [SuggestionsMessage(ai.value, SuggestedPalette(extracted, server))];
            }
          }
        }
    }
  }

  // ----------------------------------------------------------- the class

  /** `assetTypes`: a switch per asset kind. A kind that was never set reads
      as off. */
  function AssetOn(types: map<string, bool>, kind: string): bool {
    kind in types && types[kind]
  }

  class Dashboard {
    var messages: seq<Message>
    var input: string
    var loading: bool
    var industry: string
    var font: string
    var designStyle: string
    var selectedColor: string
    var colorPalette: seq<string>
    var relatedTerms: seq<string>
    var selectedImages: seq<Image>
    var assetTypes: map<string, bool>
    var showCanvas: bool
    var extractedColors: seq<string>

    /** The palette is never empty, and no request is in flight between
        handlers. */
    ghost predicate Valid()
      reads this
    {
      colorPalette != [] && !loading
    }

    constructor ()
      ensures Valid()
      ensures messages == [TextMessage(Greeting, Bot)] && input == "" && !loading
      ensures industry == "" && font == "" && designStyle == "" && selectedColor == DefaultColor
      ensures colorPalette == ["#000000", "#333333", "#666666", "#999999", "#CCCCCC", "#FFFFFF"]
      ensures relatedTerms == ["minimalist", "modern", "vibrant", "elegant", "professional"]
      ensures selectedImages == [] && !showCanvas && extractedColors == []
      ensures assetTypes == map["images" := true, "vectors" := false, "psd" := false]
    {
      messages := [TextMessage(Greeting, Bot)];
      input, loading := "", false;
      industry, font, designStyle, selectedColor := "", "", "", DefaultColor;
      colorPalette := ["#000000", "#333333", "#666666", "#999999", "#CCCCCC", "#FFFFFF"];
      relatedTerms := ["minimalist", "modern", "vibrant", "elegant", "professional"];
      selectedImages, showCanvas, extractedColors := [], false, [];
      assetTypes := map["images" := true, "vectors" := false, "psd" := false];
    }

    /** `toggleAssetType`: flip one switch; a kind never set becomes on. */
    method ToggleAssetType(kind: string)
      requires Valid()
      modifies this`assetTypes
      ensures Valid()
      ensures assetTypes == old(assetTypes)[kind := !AssetOn(old(assetTypes), kind)]
      ensures AssetOn(assetTypes, kind) == !AssetOn(old(assetTypes), kind)
      ensures forall k :: k != kind ==> AssetOn(assetTypes, k) == AssetOn(old(assetTypes), k)
    {
      assetTypes := assetTypes[kind := !AssetOn(assetTypes, kind)];
    }

    /** `handleExtractColors`: an absent or empty list changes nothing;
        otherwise the new colours are appended to both the extracted colours
        and the palette. */
    method HandleExtractColors(colors: Option<seq<string>>)
      requires Valid()
      modifies this`extractedColors, this`colorPalette
      ensures Valid()
      ensures colors.None? || colors.value == [] ==>
                extractedColors == old(extractedColors) && colorPalette == old(colorPalette)
      ensures colors.Some? && colors.value != [] ==>
                && extractedColors == MergeNew(old(extractedColors), colors.value)
                && colorPalette == MergeNew(old(colorPalette), colors.value)
    {
      if colors.Some? && |colors.value| > 0 {
        extractedColors := MergeNew(extractedColors, colors.value);
        colorPalette := MergeNew(colorPalette, colors.value);
      }
    }

    /** `toggleImageSelection`: remove every matching entry, or add the
        normalised asset; the canvas opens either way. */
    method ToggleImageSelection(img: Image)
      requires Valid()
      modifies this`selectedImages, this`showCanvas
      ensures Valid()
      ensures selectedImages == Toggle(old(selectedImages), img)
      ensures showCanvas
    {
      selectedImages := Toggle(selectedImages, img);
      if !showCanvas {
        showCanvas := true;
      }
    }

    /** The string part of `exportColorPalette`. */
    method ExportColorPalette() returns (css: string)
      ensures css == CssText(colorPalette)
    {
      var p := colorPalette;
      css := CssHead;
      assert p[..0] == [];
      var i := 0;
      while i < |p|
        invariant 0 <= i <= |p|
        invariant css == CssHead + CssLines(p[..i], 1)
      {
        var line := CssLine(i + 1, p[i]);
        CssLinesSnoc(p[..i], p[i], 1);
        assert p[..i + 1] == p[..i] + [p[i]];
        Assoc(CssHead, CssLines(p[..i], 1), line);
        css := css + line;
        i := i + 1;
      }
      assert p[..i] == p;
      Assoc(CssHead, CssLines(p, 1), Closer);
      css := css + Closer;
    }

    /** `sendMessage`: a blank input sends nothing. Otherwise the user's
        message is appended and the input cleared, then the reply's
        messages follow, the related terms are replaced when the reply has
        some, and the palette follows the reply. */
    method SendMessage(reply: SearchReply)
      requires Valid()
      modifies this`messages, this`input, this`colorPalette, this`relatedTerms
      ensures Valid()
      ensures IsBlank(old(input)) ==>
                messages == old(messages) && input == old(input)
                && colorPalette == old(colorPalette) && relatedTerms == old(relatedTerms)
      ensures !IsBlank(old(input)) ==>
                && messages == old(messages)
                     + [TextMessage(Compose(old(input), industry, font, designStyle, selectedColor), User)]
                     + ReplyMessages(reply, old(colorPalette))
                && input == ""
                && colorPalette == ReplyPalette(reply, old(colorPalette))
                && relatedTerms == ReplyTerms(reply, old(relatedTerms))
    {
      if IsBlank(input) {
        return;
      }
      var sent := TextMessage(Compose(input, industry, font, designStyle, selectedColor), User);
      var added, palette, terms := ReceiveReply(reply, colorPalette, relatedTerms);
      ReplyPaletteKept(reply, colorPalette);
      messages := messages + [sent] + added;
      input := "";
      colorPalette := palette;
      relatedTerms := terms;
    }
  }
}
