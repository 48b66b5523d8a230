/**
 * The SVG colorizer: a parsed icon, the paths extracted from it with the
 * theme colour each one is drawn in, and the guards of its save and search
 * operations.
 *
 * The XML itself is not parsed here. A parsed document is given as its
 * root element's attributes, every element of the SVG namespace in document
 * order (the root included), and the text serialising the root gives. An
 * element's attributes are a sequence of name/value pairs in document order.
 */
module SvgColorize {
  import opened Wrappers
  import opened Text
  import opened Dicts
  import opened Seqs

  type Attrs = seq<(string, string)>

  datatype Element = Element(tag: string, attrs: Attrs)

  datatype Document = Document(root: Attrs, elements: seq<Element>, serialized: string)

  /** A colorizer holds a document when its file parsed, and nothing otherwise. */
  datatype Colorizer = Colorizer(tree: Option<Document>)

  /** One entry of the `paths` list: the path data, its colour and its attributes but `class`. */
  datatype PathEntry = PathEntry(pathData: string, color: string, attrs: Attrs)

  /** What `extract_colored_paths` returns. */
  datatype ColoredPaths = ColoredPaths(viewbox: Option<string>, width: int, height: int, paths: seq<PathEntry>)

  /** What a serialisation that already declares itself starts with. */
  const XML_PREFIX: string := "<?xml"
  const XML_DECLARATION: string := XML_PREFIX + " version=\"1.0\" encoding=\"UTF-8\" standalone=\"no\"?>"
  const DEFAULT_COLOR: string := "#FAFAFA"
  const DEFAULT_SIZE: string := "24"
  const QUOTE: char := '\''

  /** `element.get(name, default)`. */
  function AttrOr(attrs: Attrs, name: string, default: string): string {
    Get(attrs, name).GetOr(default)
  }

  /**
   * `int(float(text))`. A text of decimal digits is its number; any other
   * text is converted by `floatToInt`, which gives `None` where Python raises.
   */
  function Dimension(text: string, floatToInt: string -> Option<int>): (r: Option<int>)
    ensures IsNumeric(text) ==> r == Some(ParseNat(text))
  {
    if IsNumeric(text) then Some(ParseNat(text)) else floatToInt(text)
  }

  /** The default size is 24. */
  lemma DefaultSize(floatToInt: string -> Option<int>)
    ensures Dimension(DEFAULT_SIZE, floatToInt) == Some(24)
  {
    assert DEFAULT_SIZE[..1] == "2";
    assert ParseNat("2") == 2;
  }

  predicate IsPath(e: Element) {
    e.tag == "path"
  }

  /** The `//svg:path` elements. */
  function Paths(doc: Document): seq<Element> {
    Filter(doc.elements, IsPath)
  }

  /** A path whose `d` attribute is present and not empty. */
  predicate HasData(e: Element) {
    AttrOr(e.attrs, "d", "") != ""
  }

  /** The colour of a path without a usable class: `theme_colors.get('ICON_1', '#FAFAFA')`. */
  function DefaultColour(theme: map<string, string>): string {
    if "ICON_1" in theme then theme["ICON_1"] else DEFAULT_COLOR
  }

  /** The colour of a path: the theme's colour for its class when it has a non-empty one the theme knows. */
  function Colour(attrs: Attrs, theme: map<string, string>): string {
    var cls := Get(attrs, "class");
    if cls.Some? && cls.value != "" && cls.value in theme then theme[cls.value] else DefaultColour(theme)
  }

  /**
   * Which colour a path gets, case by case, and that it is always one of
   * the theme's colours unless the theme has no `ICON_1` to fall back on.
   */
  lemma ColourChoice(attrs: Attrs, theme: map<string, string>)
    ensures var cls, r := Get(attrs, "class"), Colour(attrs, theme);
      && (cls.Some? && cls.value != "" && cls.value in theme ==> r == theme[cls.value])
      && (!(cls.Some? && cls.value != "" && cls.value in theme) && "ICON_1" in theme ==> r == theme["ICON_1"])
      && (!(cls.Some? && cls.value != "" && cls.value in theme) && "ICON_1" !in theme ==> r == DEFAULT_COLOR)
      && (r in theme.Values || ("ICON_1" !in theme && r == DEFAULT_COLOR))
  {
  }

  predicate NotClass(a: (string, string)) {
    a.0 != "class"
  }

  /** `{k: v for k, v in path.items() if k != 'class'}`. */
  function WithoutClass(attrs: Attrs): (r: Attrs)
    ensures forall a :: a in r <==> a in attrs && a.0 != "class"
  {
    Filter(attrs, NotClass)
  }

  function Entry(e: Element, theme: map<string, string>): PathEntry {
    PathEntry(AttrOr(e.attrs, "d", ""), Colour(e.attrs, theme), WithoutClass(e.attrs))
  }

  /** The entries for the paths, those with data only, in order. */
  function Entries(paths: seq<Element>, theme: map<string, string>): seq<PathEntry>
    decreases |paths|
  {
    if |paths| == 0 then []
    else
      var last := paths[|paths| - 1];
      Entries(paths[..|paths| - 1], theme) + if HasData(last) then [Entry(last, theme)] else []
  }

  /** The skipping of paths without data is the filter on `HasData`. */
  lemma {:induction false} EntriesOfFiltered(paths: seq<Element>, theme: map<string, string>)
    ensures var e, kept := Entries(paths, theme), Filter(paths, HasData);
      |e| == |kept| && forall m :: 0 <= m < |e| ==> e[m] == Entry(kept[m], theme)
    decreases |paths|
  {
    if |paths| > 0 {
      var init := paths[..|paths| - 1];
      EntriesOfFiltered(init, theme);
      var e, kept := Entries(init, theme), Filter(init, HasData);
      var last := paths[|paths| - 1];
      if HasData(last) {
        assert Entries(paths, theme) == e + [Entry(last, theme)];
        assert Filter(paths, HasData) == kept + [last];
      } else {
        assert Entries(paths, theme) == e;
        assert Filter(paths, HasData) == kept;
      }
    }
  }

  /**
   * One entry per path with data, in document order: entry `m` is made from
   * path `sel[m]`, the positions increase, and every path with data has one.
   */
  lemma EntriesFollowPaths(paths: seq<Element>, theme: map<string, string>)
    ensures var e, sel := Entries(paths, theme), Selected(paths, HasData);
      && |e| == |sel|
      && (forall m :: 0 <= m < |e| ==> sel[m] < |paths| && HasData(paths[sel[m]]) && e[m] == Entry(paths[sel[m]], theme))
      && (forall m, m' :: 0 <= m < m' < |sel| ==> sel[m] < sel[m'])
      && (forall i :: 0 <= i < |paths| && HasData(paths[i]) ==> i in sel)
  {
    EntriesOfFiltered(paths, theme);
    FilterAtSelected(paths, HasData);
  }

  /** What `extract_colored_paths` computes. */
  function Extracted(c: Colorizer, theme: map<string, string>, floatToInt: string -> Option<int>): Option<ColoredPaths> {
    if c.tree.None? || |theme| == 0 then None
    else
      var root := c.tree.value.root;
      var width := Dimension(AttrOr(root, "width", DEFAULT_SIZE), floatToInt);
      var height := Dimension(AttrOr(root, "height", DEFAULT_SIZE), floatToInt);
      if width.None? || height.None? then None
      else Some(ColoredPaths(Get(root, "viewBox"), width.value, height.value, Entries(Paths(c.tree.value), theme)))
  }

  /**
   * `extract_colored_paths`: nothing without a document or with an empty
   * theme, or when a size does not convert; otherwise the root's `viewBox`,
   * its sizes (24 when absent) and one entry per path with data.
   */
  lemma ExtractedShape(c: Colorizer, theme: map<string, string>, floatToInt: string -> Option<int>)
    ensures c.tree.None? || |theme| == 0 ==> Extracted(c, theme, floatToInt) == None
    ensures var r := Extracted(c, theme, floatToInt);
      r.Some? ==> (
        && c.tree.Some? && |theme| > 0
        && r.value.viewbox == Get(c.tree.value.root, "viewBox")
        && (!HasKey(c.tree.value.root, "width") ==> r.value.width == 24)
        && (!HasKey(c.tree.value.root, "height") ==> r.value.height == 24)
        && r.value.paths == Entries(Paths(c.tree.value), theme))
    ensures c.tree.Some? && |theme| > 0 && !HasKey(c.tree.value.root, "width") && !HasKey(c.tree.value.root, "height")
      ==> Extracted(c, theme, floatToInt).Some?
  {
    DefaultSize(floatToInt);
  }

  /** The loop of `extract_colored_paths`, building the entries one path at a time. */
  method ExtractColoredPaths(c: Colorizer, theme: map<string, string>, floatToInt: string -> Option<int>)
    returns (r: Option<ColoredPaths>)
    ensures r == Extracted(c, theme, floatToInt)
  {
    if c.tree.None? {
      return None;
    }
    if |theme| == 0 {
      return None;
    }
    var root := c.tree.value.root;
    var width := Dimension(AttrOr(root, "width", DEFAULT_SIZE), floatToInt);
    var height := Dimension(AttrOr(root, "height", DEFAULT_SIZE), floatToInt);
    if width.None? || height.None? {
      return None;
    }
    var viewbox := Get(root, "viewBox");
    var paths := Paths(c.tree.value);
    var defaultColor := DefaultColour(theme);
    var entries: seq<PathEntry> := [];
    var i := 0;
    while i < |paths|
      invariant 0 <= i <= |paths|
      invariant entries == Entries(paths[..i], theme)
    {
      assert paths[..i + 1][..i] == paths[..i];
      var path := paths[i];
      var pathData := AttrOr(path.attrs, "d", "");
      i := i + 1;
      if pathData == "" {
        continue;
      }
      var classAttr := Get(path.attrs, "class");
      var color := defaultColor;
      if classAttr.Some? && classAttr.value != "" && classAttr.value in theme {
        color := theme[classAttr.value];
      }
      var attrs := WithoutClass(path.attrs);
      entries := entries + [PathEntry(pathData, color, attrs)];
    }
    assert paths[..i] == paths;
    return Some(ColoredPaths(viewbox, width.value, height.value, entries));
  }

  /** The serialised text with the XML declaration in front, unless it already starts with one. */
  function Declared(text: string): (r: string)
    ensures StartsWith(r, XML_PREFIX)
    ensures |text| <= |r| && r[|r| - |text|..] == text
    ensures StartsWith(text, XML_PREFIX) ==> r == text
  {
    if StartsWith(text, XML_PREFIX) then text
    else
      var declared := XML_DECLARATION + "\n" + text;
      assert declared == XML_PREFIX + (XML_DECLARATION[|XML_PREFIX|..] + "\n" + text);
      declared
  }

  /** Declaring a declared text changes nothing. */
  lemma DeclaredIdempotent(text: string)
    ensures Declared(Declared(text)) == Declared(text)
  {
  }

  /** `save_to_string`: `None` without a document, otherwise the declared serialisation. */
  function SaveToString(c: Colorizer): (r: Option<string>)
    ensures r.Some? <==> c.tree.Some?
    ensures r.Some? ==> StartsWith(r.value, XML_PREFIX)
    ensures r.Some? ==> (
      && |c.tree.value.serialized| <= |r.value|
      && r.value[|r.value| - |c.tree.value.serialized|..] == c.tree.value.serialized)
  {
    match c.tree
    case None => None
    case Some(doc) => Some(Declared(doc.serialized))
  }

  /**
   * `save_to_file`: false without a document or with an empty path,
   * otherwise whether the write succeeded, which `written` stands for.
   */
  function SaveToFile(c: Colorizer, outputPath: string, written: bool): (r: bool)
    ensures r ==> c.tree.Some? && outputPath != ""
    ensures c.tree.Some? && outputPath != "" ==> r == written
  {
    if c.tree.None? then false
    else if outputPath == "" then false
    else written
  }

  /** The test `@class = name` as a value. */
  function HasClass(name: string): Element -> bool {
    (e: Element) => Get(e.attrs, "class") == Some(name)
  }

  /**
   * `_find_elements_by_class`: nothing without a document; otherwise, for a
   * name without a single quote, every element whose class is the name. A
   * name with a quote ends the XPath string literal early and the rest of
   * it is read as XPath: what the engine then gives is `quoted`, an input,
   * with `None` when it rejects the expression, in which case the error is
   * logged and nothing is found.
   */
  function FindElementsByClass(c: Colorizer, name: string, quoted: Option<seq<Element>>): (r: seq<Element>)
    ensures c.tree.None? ==> r == []
    ensures c.tree.Some? && QUOTE in name ==> r == quoted.GetOr([])
    ensures QUOTE !in name ==> forall e :: e in r ==> Get(e.attrs, "class") == Some(name)
    ensures c.tree.Some? && QUOTE !in name ==>
      forall e :: e in c.tree.value.elements && Get(e.attrs, "class") == Some(name) ==> e in r
  {
    if c.tree.None? then []
    else if QUOTE in name then quoted.GetOr([])
    else Filter(c.tree.value.elements, HasClass(name))
  }
}
