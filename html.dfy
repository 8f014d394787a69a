/** The two HTML shapes the converters build. */
module Html {
  /** `<tag>body</tag>`. */
  function Element(tag: string, body: string): string {
    ("<" + tag + ">") + body + ("</" + tag + ">")
  }

  /** `<a href="href">text</a>`. */
  function Anchor(href: string, text: string): string {
    "<a href=\"" + href + "\">" + text + "</a>"
  }
}
