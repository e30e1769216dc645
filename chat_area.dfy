/** The helpers of the chat area component (src/components/ChatArea.jsx):
    the related-term buttons, the image grid of a message, the masonry rule,
    how a message's text is rendered, and where a submit goes. */
module ChatArea {
  import opened Text
  import opened ChatModel
  import opened Seqs
  import opened Grouping
  import ChatLinks

  // ------------------------------------------------------- related terms

  /** The buttons show at most the first five related terms. */
  function ShownTerms(terms: seq<string>): (r: seq<string>)
    ensures |r| == if |terms| < 5 then |terms| else 5
    ensures r <= terms
  {
    if |terms| <= 5 then terms else terms[..5]
  }

  /** A click on a related term: the term becomes the input when the input
      is empty, and is added after a space otherwise. */
  function AppendTerm(prev: string, term: string): (r: string)
    ensures prev <= r && EndsWith(r, term)
    ensures |r| == |prev| + |term| + (if prev == "" then 0 else 1)
    ensures prev != "" ==> r[|prev|] == ' '
  {
    if prev == "" then term else prev + " " + term
  }

  /** The input after clicking `terms` one after the other, starting from
      an empty input. */
  function Clicks(terms: seq<string>): string {
    if terms == [] then "" else AppendTerm(Clicks(terms[..|terms| - 1]), terms[|terms| - 1])
  }

  /** The terms separated by single spaces. */
  function JoinWords(terms: seq<string>): string {
    if terms == [] then ""
    else if |terms| == 1 then terms[0]
    else terms[0] + " " + JoinWords(terms[1..])
  }

  lemma {:induction false} JoinWordsSnoc(terms: seq<string>, t: string)
    ensures JoinWords(terms + [t]) == if terms == [] then t else JoinWords(terms) + " " + t
    decreases |terms|
  {
    if |terms| >= 2 {
      assert (terms + [t])[1..] == terms[1..] + [t];
      JoinWordsSnoc(terms[1..], t);
    } else if |terms| == 1 {
      assert (terms + [t])[1..] == [t];
    }
  }

  lemma {:induction false} ClicksNonEmpty(terms: seq<string>)
    requires terms != [] && forall i :: 0 <= i < |terms| ==> terms[i] != ""
    ensures Clicks(terms) != ""
  {
    assert terms[|terms| - 1] != "";
  }

  /** Clicking non-empty terms from an empty input spells them out separated
      by single spaces. */
  lemma {:induction false} ClicksJoin(terms: seq<string>)
    requires forall i :: 0 <= i < |terms| ==> terms[i] != ""
    ensures Clicks(terms) == JoinWords(terms)
    decreases |terms|
  {
    if terms != [] {
      var p := terms[..|terms| - 1];
      ClicksJoin(p);
      JoinWordsSnoc(p, terms[|terms| - 1]);
      assert p + [terms[|terms| - 1]] == terms;
      if p != [] {
        ClicksNonEmpty(p);
      }
    }
  }

  /** An empty term swallows the separator: after an empty term, the next
      click replaces the still-empty input instead of adding a space. */
  lemma EmptyTermSwallowed(t: string)
    ensures Clicks(["", t]) == t != JoinWords(["", t])
  {
    assert ["", t][..1] == [""];
    assert [""][..0] == [];
    assert Clicks([""]) == "";
    assert ["", t][1..] == [t];
    assert JoinWords(["", t]) == "" + " " + t;
  }

  // ------------------------------------------------------------- masonry

  /** In the masonry layout every third tile of a category, starting with
      the first, spans two rows. */
  predicate RowSpansTwo(layout: string, idx: nat) {
    layout == "masonry" && idx % 3 == 0
  }

  /** The class the tile at `idx` receives for its row span. */
  function SpanClass(layout: string, idx: nat): (c: string)
    ensures c == "row-span-2" || c == ""
    ensures c != "" <==> RowSpansTwo(layout, idx)
  {
    if RowSpansTwo(layout, idx) then "row-span-2" else ""
  }

  /** How many of the first `n` tiles of a category span two rows. */
  function TallTiles(layout: string, n: nat): nat {
    if n == 0 then 0 else TallTiles(layout, n - 1) + (if RowSpansTwo(layout, n - 1) then 1 else 0)
  }

  /** A masonry category of `n` images has a tall tile for each started
      run of three; a grid has none. */
  lemma {:induction false} TallTilesCount(layout: string, n: nat)
    ensures TallTiles(layout, n) == if layout == "masonry" then (n + 2) / 3 else 0
  {
    if n > 0 {
      TallTilesCount(layout, n - 1);
    }
  }

  // ---------------------------------------------------------- image grid

  const GridFallback: string := "Inspiration"

  /** `img.category || "Inspiration"`. */
  function GridCategory(img: Image): string {
    CategoryOf(img, GridFallback)
  }

  /** The categories of a grid, in the order `Object.entries` lists them,
      and the images of each. */
  datatype Grid = Grid(categories: seq<string>, byCategory: map<string, seq<Image>>)

  /** What `renderFormatGrid` produces: nothing, a render that throws, or
      the grid. */
  datatype GridView = NoGrid | GridThrows | Shown(grid: Grid)

  /** `renderFormatGrid`: nothing for an absent or empty image list; a
      TypeError when an image's category is a name `{}` inherits; otherwise
      the images grouped by category with the `reduce` that pushes each
      image onto its category's list. */
  method FormatGrid(images: Option<seq<Image>>) returns (view: GridView)
    ensures view.NoGrid? <==> images.None? || images.value == []
    ensures view.GridThrows? <==> images.Some? && GroupingThrows(images.value, GridFallback)
    ensures view.Shown? ==>
              && view.grid.categories == DistinctKeys(images.value, GridCategory)
              && (forall k :: k in view.grid.byCategory <==> k in view.grid.categories)
              && (forall k :: k in view.grid.byCategory ==> view.grid.byCategory[k] == Group(images.value, GridCategory, k))
  {
    if images.None? || images.value == [] {
      return NoGrid;
    }
    if GroupingThrows(images.value, GridFallback) {
      return GridThrows;
    }
    var ks, groups := GroupBy(images.value, GridCategory);
    view := Shown(Grid(ks, groups));
  }

  /** The groups of a grid together hold its images exactly, and no
      category heading is empty. */
  lemma GridPartition(images: seq<Image>)
    ensures multiset(Gather(images, GridCategory, DistinctKeys(images, GridCategory))) == multiset(images)
    ensures forall k :: k in DistinctKeys(images, GridCategory) ==> k != ""
  {
    GroupsPartition(images, GridCategory);
    DistinctKeysSpec(images, GridCategory);
  }

  // ----------------------------------------------------- message display

  /** The HTML a message bubble shows for the text: nothing when the text is
      absent or empty; a bot's text with its links made clickable; a user's
      text as it is. */
  function DisplayedHtml(m: Message): (html: Option<string>)
    ensures html.Some? <==> m.text.Some? && m.text.value != ""
    ensures html.Some? && m.sender == User ==> html.value == m.text.value
    ensures html.Some? && m.sender == Bot ==> html.value == ChatLinks.MakeLinksClickable(m.text.value)
  {
    if m.text.None? || m.text.value == "" then None
    else if m.sender == Bot then Some(ChatLinks.MakeLinksClickable(m.text.value))
    else Some(m.text.value)
  }

  /** A bot's text without any `<a href="…"` header is shown unchanged, and
      showing it twice changes nothing further when every captured address
      is free of `<`. */
  lemma BotTextShown(m: Message)
    requires m.sender == Bot && m.text.Some? && m.text.value != ""
    ensures ChatLinks.Unmatched(m.text.value) ==> DisplayedHtml(m) == m.text
    ensures ChatLinks.PlainUrls(m.text.value) ==>
              var shown := DisplayedHtml(m).value;
              ChatLinks.MakeLinksClickable(shown) == shown
  {
    if ChatLinks.Unmatched(m.text.value) {
      ChatLinks.UnmatchedUnchanged(m.text.value);
    }
    if ChatLinks.PlainUrls(m.text.value) {
      ChatLinks.RewriteIdempotent(m.text.value);
    }
  }

  // -------------------------------------------------------------- submit

  /** What the AI generation request produced: the request or the JSON
      parse failed, or the reply's fields. */
  datatype AiReply =
    | AiFailed
    | AiData(images: Option<seq<Image>>, aiSuggestions: Option<string>,
             heading: Option<string>, colorPalette: Option<seq<string>>)

  /** What a submit does: hand over to the parent's `sendMessage`, or run
      the AI generation, which ignores a blank input, only logs a failed
      request, and otherwise hands one bot message to `addMessage`. */
  datatype Submitted =
    | Sent
    | AiIgnored
    | AiError
    | AiAdded(message: Message)

  /** The bot message built from the AI generation reply. */
  function AiMessage(images: Option<seq<Image>>, text: Option<string>,
                     heading: Option<string>, palette: Option<seq<string>>): Message {
    Message(text, Bot, None, images, palette, heading)
  }

  /** `handleSubmit` with `generateFreepikAIImage`. */
  function HandleSubmit(includeAI: bool, input: string, reply: AiReply): (s: Submitted)
    ensures s.Sent? <==> !includeAI
    ensures s.AiIgnored? <==> includeAI && IsBlank(input)
    ensures s.AiError? <==> includeAI && !IsBlank(input) && reply.AiFailed?
    ensures s.AiAdded? ==>
              && reply.AiData?
              && s.message.sender == Bot && s.message.categoryTitle.None?
              && s.message.text == reply.aiSuggestions && s.message.images == reply.images
              && s.message.heading == reply.heading && s.message.colorPalette == reply.colorPalette
  {
    if !includeAI then Sent
    else if IsBlank(input) then AiIgnored
    else match reply
      case AiFailed => AiError
      case AiData(images, text, heading, palette) => AiAdded(AiMessage(images, text, heading, palette))
  }
}
