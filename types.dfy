/** The records shared by every stage of the digest (src/types.ts). */
module Types {
  import opened Wrappers

  /** `"hiring" | "tech" | "research"` */
  datatype FeedCategory = Hiring | Tech | Research

  /** `"all" | "hiring" | "tech"`: which classifier, if any, a source's items must pass. */
  datatype FeedFilter = AllItems | HiringOnly | TechOnly

  datatype FeedSource = FeedSource(name: string, url: string, category: FeedCategory, filter: FeedFilter)

  /** One feed entry. `published` is a date in milliseconds since the epoch,
      `None` where the source has `null`. */
  datatype FeedItem = FeedItem(
    title: string,
    link: string,
    published: Option<int>,
    summary: Option<string>,
    source: string,
    category: FeedCategory)

  /** The category's spelling in the TypeScript union type. */
  function CategoryName(c: FeedCategory): string {
    match c
    case Hiring => "hiring"
    case Tech => "tech"
    case Research => "research"
  }
}
