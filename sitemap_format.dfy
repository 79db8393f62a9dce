/**
 * The fixed pieces of the sitemaps.org XML format that both sitemap
 * generators write: the declaration, the `urlset` element and the indented
 * lines of a `url` record.
 */
module SitemapFormat {
  const XmlDeclaration: string := "<?xml version=\"1.0\" encoding=\"UTF-8\"?>"
  const UrlsetOpen: string := "<urlset xmlns=\"http://www.sitemaps.org/schemas/sitemap/0.9\">"
  const UrlsetClose: string := "</urlset>"
  const UrlOpenLine: string := "  <url>"
  const UrlCloseLine: string := "  </url>"

  /** One indented element line, `    <tag>value</tag>`. */
  function ElementLine(tag: string, value: string): string {
    "    <" + tag + ">" + value + "</" + tag + ">"
  }
}
