/** The records the chat layer passes around: search results, selected
    assets and chat messages. A JavaScript string field that is absent or
    empty (falsy) is the empty string here; an optional array or text is an
    `Option`. */
module ChatModel {

  datatype Option<+T> = None | Some(value: T)

  /** An image candidate: `image` is the picture's address, `url` its source
      page, `fileType` the server's format hint, `format` the format the
      client computed. */
  datatype Image = Image(
    image: string,
    url: string,
    title: string,
    category: string,
    fileType: string,
    format: string)

  datatype Sender = User | Bot

  /** A chat message: every field but `sender` is optional, as in the
      JavaScript objects the transcript holds. */
  datatype Message = Message(
    text: Option<string>,
    sender: Sender,
    categoryTitle: Option<string>,
    images: Option<seq<Image>>,
    colorPalette: Option<seq<string>>,
    heading: Option<string>)

  function TextMessage(text: string, sender: Sender): Message {
    Message(Some(text), sender, None, None, None, None)
  }

  /** `hasInteractiveElements`: the message carries an image list (any
      array is truthy, even an empty one) or a non-empty palette. */
  function HasInteractiveElements(m: Message): (r: bool)
    ensures r <==> m.images.Some? || (m.colorPalette.Some? && |m.colorPalette.value| > 0)
    ensures m.sender == User && m.images.None? && m.colorPalette.None? ==> !r
  {
    m.images.Some? || (m.colorPalette.Some? && |m.colorPalette.value| > 0)
  }

  /** `img.category || fallback`. */
  function CategoryOf(img: Image, fallback: string): string {
    if img.category != "" then img.category else fallback
  }

  /** The property names a plain object `{}` inherits from
      `Object.prototype`. Looking one of them up in a fresh object finds a
      function, or for `__proto__` the prototype itself: a truthy value
      that has no `push`. */
  const InheritedNames: set<string> := {
    "constructor", "__proto__", "toString", "toLocaleString", "valueOf",
    "hasOwnProperty", "isPrototypeOf", "propertyIsEnumerable",
    "__defineGetter__", "__defineSetter__", "__lookupGetter__", "__lookupSetter__"
  }

  /** Grouping `images` by category into `{}` with
      `if (!acc[category]) acc[category] = []; acc[category].push(img)`
      throws a TypeError: some image's category is an inherited name, so
      the list is never created and `push` is called on the inherited
      value. */
  predicate GroupingThrows(images: seq<Image>, fallback: string) {
    exists i :: 0 <= i < |images| && CategoryOf(images[i], fallback) in InheritedNames
  }
}
