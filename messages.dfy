/**
 * The records the scraper stores in the `discord_messages` table and that
 * every other component reads. `None` stands for a key that is missing or
 * null in the stored JSON. The embed keeps the difference: the archiver
 * writes `"embed": null` for every message without one, and
 * `raw.get("embed", {})` returns that `None` rather than the default.
 */
module Messages {
  import opened Wrappers

  /** `raw_data.embed.author`. */
  datatype EmbedAuthor = EmbedAuthor(name: Option<string>)

  /** One entry of `raw_data.embed.fields`. */
  datatype Field = Field(name: Option<string>, value: Option<string>)

  /** One entry of `raw_data.embed.links`, as the scraper extracted it. */
  datatype EmbedLink = EmbedLink(text: Option<string>, url: Option<string>, field: Option<string>)

  /**
   * `raw_data.embed`: a missing key (or an empty object, which every reader
   * treats alike), a JSON `null`, or an object.
   */
  datatype EmbedSlot = Missing | Null | Present(value: Embed) {
    /** The embed as `if embed:` sees it: only an object is there. */
    function Object(): Option<Embed> {
      if Present? then Some(value) else None
    }
  }

  datatype Embed = Embed(
    author: Option<EmbedAuthor>,
    title: Option<string>,
    description: Option<string>,
    fields: seq<Field>,
    links: seq<EmbedLink>,
    images: seq<string>,
    thumbnail: Option<string>,
    image: Option<string>,
    footer: Option<string>)

  /**
   * A stored message. `scrapedAt` is the ingestion time as an integer
   * (the store keeps an ISO-8601 string); `authorName` is
   * `raw_data.author.name`; `contentHash` is `raw_data.content_hash`.
   */
  datatype Message = Message(
    id: Option<string>,
    content: string,
    scrapedAt: Option<int>,
    authorName: Option<string>,
    embed: EmbedSlot,
    contentHash: Option<string>)
}
