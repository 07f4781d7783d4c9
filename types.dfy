/**
 * The blog's domain records: a post with its closed set of categories, and a
 * newsletter subscriber. Timestamps (ISO strings in the program) are integers
 * here; an absent optional image is the empty string.
 */
module Types {

  /** The three categories, in declaration order. */
  datatype PostCategory = DevLog | Article | Project

  /** The string value each category carries (and that the category menu shows). */
  function CategoryName(c: PostCategory): (name: string)
    ensures name != ""
  {
    match c
    case DevLog => "DevLog"
    case Article => "Makale"
    case Project => "Proje"
  }

  /** Distinct categories carry distinct names, so the names identify them. */
  lemma CategoryNameInjective(a: PostCategory, b: PostCategory)
    ensures CategoryName(a) == CategoryName(b) <==> a == b
  {
  }

  datatype Post = Post(
    id: string,
    title: string,
    slug: string,
    summary: string,
    content: string,
    image: string,
    date: int,
    category: PostCategory,
    tags: seq<string>,
    updatedAt: int,
    isFeatured: bool,
    readingTimeMinutes: int)

  datatype Subscriber = Subscriber(id: string, email: string, createdAt: int)

  /** An error reported by the hosted database or thrown by a service: a code and a message. */
  datatype Fault = Fault(code: string, message: string)

  function DateOf(p: Post): int { p.date }
  function IdOf(p: Post): string { p.id }
  function CategoryOf(p: Post): PostCategory { p.category }
  function IsFeatured(p: Post): bool { p.isFeatured }
  function CreatedAtOf(s: Subscriber): int { s.createdAt }
}
