/** What the checkers read from a parsed page. BeautifulSoup's parse is not
    modelled: a page arrives as the record of what `soup.find`, `find_all`
    and `get_text` return on it. */
module Html {
  import opened Text

  /** An `<a href=...>` element in document order: its `href` attribute and
      its `get_text(strip=True)`. */
  datatype Anchor = Anchor(href: string, text: string)

  /** `soup.find('title')`: no `<title>` element at all, or one whose `.string`
      is `None` (an empty element, or one with several children) or a string. */
  datatype TitleTag = NoTitle | TitleTag(str: Option<string>)

  datatype Document = Document(
    /** `str(soup)`. */
    markup: string,
    /** `soup.get_text(separator=' ', strip=True)`. */
    visibleText: string,
    /** `soup.get_text()`. */
    rawText: string,
    /** Every `<a>` with an `href`, in document order. */
    anchors: seq<Anchor>,
    title: TitleTag,
    /** The `content` attribute of the first `<meta name="description">`, if both exist. */
    description: Option<string>,
    /** The `content` attribute of the first `<meta name="keywords">`, if both exist. */
    keywords: Option<string>,
    /** Some `<link>` has a `rel` containing `icon` (case-insensitively). */
    hasIconLink: bool,
    /** The first `<link>` whose `rel` contains `icon` has an `href`; its value. */
    iconHref: Option<string>,
    hasViewport: bool,
    /** A `<meta charset>` or a `<meta http-equiv="Content-Type">`. */
    hasCharset: bool,
    /** A `<meta property="og:title">`, `og:description` or `og:image`. */
    hasOgTags: bool)

  /** The stripped `.string` of the `<title>` element, or nothing when there
      is no `<title>` or its `.string` is `None`. */
  function TitleText(tag: TitleTag): (r: Option<string>)
    ensures r.Some? <==> tag.TitleTag? && tag.str.Some?
    ensures r.Some? ==> r.value == Strip(tag.str.value)
  {
    if tag.TitleTag? && tag.str.Some? then Some(Strip(tag.str.value)) else None
  }

  /** `tag['content'] if tag and tag.get('content') else None`: an empty
      attribute is as good as none. */
  function MetaContent(attr: Option<string>): (r: Option<string>)
    ensures r.Some? <==> attr.Some? && attr.value != []
    ensures r.Some? ==> r == attr
  {
    if attr.Some? && attr.value != [] then attr else None
  }
}
