/** The rows the pages read from the hosted tables, the records they write, and
    the effects a page handler produces: requests to the backend, browser
    dialogs and navigation. The backend itself is not modelled; what it answers
    is passed to each handler as a parameter. */
module Remote {
  import opened Wrappers
  import opened JsNumbers

  /** A row of the `posts` table as `select("*")` returns it; nullable columns
      are `Option`s. */
  datatype Post = Post(
    id: int,
    createdAt: string,
    title: Option<string>,
    content: Option<string>,
    imageUrl: Option<string>,
    videoUrl: Option<string>,
    flag: Option<string>,
    upvotes: Option<int>,
    userId: Option<string>,
    secretKey: Option<string>,
    repostOf: Option<int>)

  /** A row of the `comments` table. */
  datatype Comment = Comment(
    id: int,
    postId: int,
    content: string,
    userId: Option<string>,
    createdAt: string)

  /** The record the create form inserts into `posts`. `repostOf` holds the
      Number `parseInt` produced (`None` is `null`). */
  datatype NewPost = NewPost(
    title: string,
    content: string,
    imageUrl: string,
    upvotes: int,
    userId: string,
    secretKey: string,
    flag: string,
    videoUrl: string,
    repostOf: Option<JsNumber>)

  /** The row the `posts` table holds after inserting `rec`, given the id and
      creation time the table assigned: every sent column as sent. A `NaN`
      repost reference travels as JSON `null`. */
  function StoredRow(rec: NewPost, id: int, createdAt: string): (p: Post)
    ensures p.userId == Some(rec.userId) && p.secretKey == Some(rec.secretKey)
    ensures p.title == Some(rec.title) && p.upvotes == Some(rec.upvotes)
    ensures p.repostOf.Some? <==> rec.repostOf.Some? && rec.repostOf.value.Num?
  {
    var repost := match rec.repostOf
      case Some(Num(n)) => Some(n)
      case _ => None;
    Post(id, createdAt, Some(rec.title), Some(rec.content), Some(rec.imageUrl),
         Some(rec.videoUrl), Some(rec.flag), Some(rec.upvotes), Some(rec.userId),
         Some(rec.secretKey), repost)
  }

  /** The payload of the edit form's update: these three columns and no others. */
  datatype PostEdit = PostEdit(title: string, content: string, imageUrl: string)

  /** What a lookup of a post by id AND secret key (`.single()`) answers: an
      error, no data, or the matching row. Only the last verifies the key. */
  datatype KeyLookup = LookupError | NoRow | RowFound

  /** `error || !data` is false: the key is right only when the lookup by id
      and key found the row; an error and a missing row both count as a wrong
      key. */
  predicate KeyAccepted(lookup: KeyLookup) {
    lookup == RowFound
  }

  /** One observable effect of a handler, in the order it happens. */
  datatype Effect =
    | Navigate(path: string)
    | Alert(message: string)
    | AskConfirm(message: string)
    | LookupKey(postId: string, secretKey: string)
    | FetchRepost(repostId: int)
    | UpdateUpvotes(postId: string, upvotes: int)
    | InsertComment(postId: string, content: string, userId: string)
    | DeletePost(postId: string)
    | InsertPost(record: NewPost)
    | UploadImage(path: string)
    | UpdatePost(postId: string, payload: PostEdit)

  /** A page's state after a handler ran, with the effects it produced. */
  datatype Step<S> = Step(state: S, effects: seq<Effect>)

  const HomePath := "/"

  function PostPath(id: string): string {
    "/posts/" + id
  }

  function EditPath(id: string): string {
    "/posts/" + id + "/edit"
  }

  /** The effect is one of the actions the secret key guards: opening the edit
      route or deleting the post. */
  predicate IsGuardedAction(e: Effect, postId: string) {
    e == Navigate(EditPath(postId)) || e.DeletePost?
  }
}
