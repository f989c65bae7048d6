// The post record as the request schemas describe it: the two enumerations,
// the base fields with their length constraints and defaults, the create body
// and the partial update.
module PostSchema {
  import opened Results

  datatype PostStatus = Draft | Published | Archived

  datatype PostType = Article | News | Tutorial | Review

  /** The string value each status member stands for. */
  function StatusValue(s: PostStatus): string {
    match s
    case Draft => "draft"
    case Published => "published"
    case Archived => "archived"
  }

  /** The status member a string value names; exactly three strings name one. */
  function ParseStatus(v: string): (r: Option<PostStatus>)
    ensures r.Some? <==> v == "draft" || v == "published" || v == "archived"
  {
    if v == "draft" then Some(Draft)
    else if v == "published" then Some(Published)
    else if v == "archived" then Some(Archived)
    else None
  }

  /** The string value each type member stands for. */
  function TypeValue(t: PostType): string {
    match t
    case Article => "article"
    case News => "news"
    case Tutorial => "tutorial"
    case Review => "review"
  }

  /** The type member a string value names; exactly four strings name one. */
  function ParseType(v: string): (r: Option<PostType>)
    ensures r.Some? <==> v == "article" || v == "news" || v == "tutorial" || v == "review"
  {
    if v == "article" then Some(Article)
    else if v == "news" then Some(News)
    else if v == "tutorial" then Some(Tutorial)
    else if v == "review" then Some(Review)
    else None
  }

  /** A member and its string value name each other both ways. */
  lemma EnumValuesRoundTrip(s: PostStatus, t: PostType, v: string)
    ensures ParseStatus(StatusValue(s)) == Some(s)
    ensures ParseStatus(v).Some? ==> StatusValue(ParseStatus(v).value) == v
    ensures ParseType(TypeValue(t)) == Some(t)
    ensures ParseType(v).Some? ==> TypeValue(ParseType(v).value) == v
  {
  }

  /** The stored fields of a post (PostBase); the store adds the id and the timestamps. */
  datatype PostFields = PostFields(
    title: string,
    content: string,
    kind: PostType,
    status: PostStatus,
    publicationDate: Option<int>,
    authorId: int)

  predicate ValidTitle(title: string) { 3 <= |title| <= 255 }

  predicate ValidContent(content: string) { 10 <= |content| }

  predicate ValidPost(f: PostFields) { ValidTitle(f.title) && ValidContent(f.content) }

  /** A create request as sent: type, status and publication date may be left out. */
  datatype PostCreateBody = PostCreateBody(
    title: string,
    content: string,
    kind: Option<PostType>,
    status: Option<PostStatus>,
    publicationDate: Option<int>,
    authorId: int)

  /** Building a PostCreate: the length constraints are checked and the defaults filled in. */
  function ParsePostCreate(b: PostCreateBody): (r: Result<PostFields>)
    ensures r.Ok? <==> ValidTitle(b.title) && ValidContent(b.content)
    ensures r.Err? ==> r.error == Validation
    ensures r.Ok? ==> ValidPost(r.value)
    ensures r.Ok? ==> r.value.kind == (if b.kind.Some? then b.kind.value else Article)
    ensures r.Ok? ==> r.value.status == (if b.status.Some? then b.status.value else Draft)
    ensures r.Ok? ==> r.value.title == b.title && r.value.content == b.content
                      && r.value.publicationDate == b.publicationDate && r.value.authorId == b.authorId
  {
    if !ValidTitle(b.title) || !ValidContent(b.content) then Err(Validation)
    else Ok(PostFields(b.title, b.content, b.kind.GetOr(Article), b.status.GetOr(Draft),
                       b.publicationDate, b.authorId))
  }

  /**
   * A PostUpdate: every field optional, None meaning "not set"; `publicationDate`
   * can be set to null, hence its second Option.  There is no author field.
   */
  datatype PostUpdate = PostUpdate(
    title: Option<string>,
    content: Option<string>,
    kind: Option<PostType>,
    status: Option<PostStatus>,
    publicationDate: Option<Option<int>>)

  /** The same length constraints, on the fields that are set. */
  predicate ValidUpdate(u: PostUpdate) {
    && (u.title.Some? ==> ValidTitle(u.title.value))
    && (u.content.Some? ==> ValidContent(u.content.value))
  }

  /** The fields after an update: each set field takes its new value, every other field keeps its old one. */
  function ApplyUpdate(f: PostFields, u: PostUpdate): (r: PostFields)
    ensures r.authorId == f.authorId
    ensures r.title == (if u.title.Some? then u.title.value else f.title)
    ensures r.content == (if u.content.Some? then u.content.value else f.content)
    ensures r.kind == (if u.kind.Some? then u.kind.value else f.kind)
    ensures r.status == (if u.status.Some? then u.status.value else f.status)
    ensures r.publicationDate == (if u.publicationDate.Some? then u.publicationDate.value else f.publicationDate)
    ensures ValidPost(f) && ValidUpdate(u) ==> ValidPost(r)
  {
    PostFields(
      u.title.GetOr(f.title),
      u.content.GetOr(f.content),
      u.kind.GetOr(f.kind),
      u.status.GetOr(f.status),
      u.publicationDate.GetOr(f.publicationDate),
      f.authorId)
  }

  /** An update that sets nothing leaves the post as it was. */
  const NoChange := PostUpdate(None, None, None, None, None)

  function Patch(u: PostUpdate): PostFields -> PostFields {
    (f: PostFields) => ApplyUpdate(f, u)
  }

  function WithStatus(s: PostStatus): PostFields -> PostFields {
    (f: PostFields) => f.(status := s)
  }
}
