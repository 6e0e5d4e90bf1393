/** The post detail page: one post, its comments and the post it reposts, with
    upvote, comment, and edit/delete guarded by ownership or the secret key.
    The page state is an immutable record; each event handler is a function
    from the state (and whatever the backend answered) to the next state and
    the effects produced. */
module PostPage {
  import opened Wrappers
  import opened JsStrings
  import opened Remote
  import opened JsNumbers
  import opened Identity
  import CreatePost

  /** The action a non-owner asked for before the secret-key prompt opened. */
  datatype Action = EditAction | DeleteAction

  /** The route's post id (`useParams`) and this browser's user id. */
  datatype Context = Context(id: string, userId: string)

  datatype PageState = PageState(
    post: Option<Post>,
    repostedPost: Option<Post>,
    comments: seq<Comment>,
    newComment: string,
    loading: bool,
    secretKey: string,
    isOwner: bool,
    showSecretKeyModal: bool,
    actionType: Option<Action>)

  /** The state before anything is fetched. */
  const Initial := PageState(None, None, [], "", true, "", false, false, None)

  const InvalidKeyMessage := "Invalid secret key. You are not authorized to perform this action."
  const ConfirmDeleteMessage := "Are you sure you want to delete this post?"

  /** The loaded post was written from this browser: strict equality of its
      `user_id` with the local id, so a null `user_id` never matches. */
  predicate OwnedBy(p: Post, userId: string) {
    p.userId == Some(userId)
  }

  /** A post's `repost_of` is truthy: present and not 0. */
  predicate RepostsAnother(p: Post) {
    p.repostOf.Some? && p.repostOf.value != 0
  }

  /** `fetchPost`: on error go back to the feed; otherwise show the post,
      decide ownership, and fetch the reposted post when there is one. */
  function LoadPost(ctx: Context, s: PageState, fetched: Result<Post>): (r: Step<PageState>)
    ensures !r.state.loading
    ensures fetched.Err? ==> r == Step(s.(loading := false), [Navigate(HomePath)])
    ensures fetched.Ok? ==> r.state.post == Some(fetched.value)
    ensures fetched.Ok? ==> (r.state.isOwner <==> OwnedBy(fetched.value, ctx.userId))
    ensures fetched.Ok? && RepostsAnother(fetched.value) ==>
      r.effects == [FetchRepost(fetched.value.repostOf.value)]
    ensures fetched.Ok? && !RepostsAnother(fetched.value) ==> r.effects == []
    ensures r.state.comments == s.comments && r.state.showSecretKeyModal == s.showSecretKeyModal
  {
    match fetched
    case Err(_) => Step(s.(loading := false), [Navigate(HomePath)])
    case Ok(p) =>
      var effects := if p.repostOf.Some? && p.repostOf.value != 0 then [FetchRepost(p.repostOf.value)] else [];
      Step(s.(post := Some(p), isOwner := p.userId == Some(ctx.userId), loading := false), effects)
  }

  /** `fetchRepostedPost`: a failed fetch leaves the page as it is. */
  function LoadRepost(s: PageState, fetched: Result<Post>): (r: PageState)
    ensures fetched.Err? ==> r == s
    ensures fetched.Ok? ==> r.repostedPost == Some(fetched.value) && r.(repostedPost := s.repostedPost) == s
  {
    match fetched
    case Err(_) => s
    case Ok(p) => s.(repostedPost := Some(p))
  }

  /** `fetchComments`: rows in the order the backend sorted them, `null` data
      read as no comments, an error leaving the list as it was. */
  function LoadComments(s: PageState, fetched: Result<Option<seq<Comment>>>): (r: PageState)
    ensures fetched.Err? ==> r == s
    ensures fetched.Ok? && fetched.value.None? ==> r == s.(comments := [])
    ensures fetched.Ok? && fetched.value.Some? ==> r == s.(comments := fetched.value.value)
  {
    match fetched
    case Err(_) => s
    case Ok(rows) => s.(comments := rows.GetOr([]))
  }

  /** Whatever the fetch of the reposted post answers, the post loaded before
      it, its ownership and the comments stay as they were. */
  lemma RepostLeavesPostAlone(ctx: Context, s: PageState, p: Post, fetched: Result<Post>)
    ensures var r := LoadRepost(LoadPost(ctx, s, Ok(p)).state, fetched);
      && r.post == Some(p)
      && (r.isOwner <==> OwnedBy(p, ctx.userId))
      && r.comments == s.comments
  {
  }

  /** The post page opened by the browser that created the post (a second
      `getUserId` on the storage the create page left) shows it as owned:
      the inserted row carries the same user id. */
  lemma AuthorOwnsPost(f: CreatePost.Form, stored: Option<string>, uuid1: Option<Uuid>, now1: nat,
                       uuid2: Option<Uuid>, now2: nat, newId: int, createdAt: string, s: PageState)
    requires !IsBlank(f.title) && !IsBlank(f.secretKey)
    ensures var author := GetOrCreateUserId(stored, uuid1, now1);
      var sent := CreatePost.Submit(f, author.userId, Ok(newId)).effects[0];
      var reader := GetOrCreateUserId(author.stored, uuid2, now2);
      && sent.InsertPost?
      && LoadPost(Context(IntText(newId), reader.userId), s, Ok(StoredRow(sent.record, newId, createdAt))).state.isOwner
  {
    GetOrCreateIdempotent(stored, uuid1, now1, uuid2, now2);
  }

  /** `post.upvotes || 0`. */
  function UpvotesOrZero(p: Post): int {
    p.upvotes.GetOr(0)
  }

  /** Two posts agree on every column except possibly `upvotes`. */
  predicate SameExceptUpvotes(p: Post, q: Post) {
    p.(upvotes := q.upvotes) == q
  }

  /** `handleUpvote`: with a post loaded, write (upvotes or 0) + 1 and, only if
      the write succeeded, show that count locally. */
  function Upvote(ctx: Context, s: PageState, written: Outcome): (r: Step<PageState>)
    ensures s.post.None? ==> r == Step(s, [])
    ensures s.post.Some? ==> r.effects == [UpdateUpvotes(ctx.id, UpvotesOrZero(s.post.value) + 1)]
    ensures written.Fail? ==> r.state == s
    ensures s.post.Some? && written.Pass? ==>
      && r.state.post.Some?
      && r.state.post.value.upvotes == Some(UpvotesOrZero(s.post.value) + 1)
      && SameExceptUpvotes(r.state.post.value, s.post.value)
      && r.state.(post := s.post) == s
  {
    match s.post
    case None => Step(s, [])
    case Some(p) =>
      var count := UpvotesOrZero(p) + 1;
      var next := if written.Pass? then s.(post := Some(p.(upvotes := Some(count)))) else s;
      Step(next, [UpdateUpvotes(ctx.id, count)])
  }

  /** `k` successful upvotes in a row. */
  function UpvoteTimes(ctx: Context, s: PageState, k: nat): PageState
    decreases k
  {
    if k == 0 then s else UpvoteTimes(ctx, Upvote(ctx, s, Pass).state, k - 1)
  }

  /** After `k` successful upvotes the count is the starting count (or 0) plus
      `k`, and no other column of the post has changed. */
  lemma {:induction false} UpvoteTimesAdds(ctx: Context, s: PageState, k: nat)
    requires s.post.Some?
    ensures UpvoteTimes(ctx, s, k).post.Some?
    ensures k > 0 ==> UpvoteTimes(ctx, s, k).post.value.upvotes == Some(UpvotesOrZero(s.post.value) + k)
    ensures SameExceptUpvotes(UpvoteTimes(ctx, s, k).post.value, s.post.value)
    decreases k
  {
    if k > 0 {
      var s1 := Upvote(ctx, s, Pass).state;
      UpvoteTimesAdds(ctx, s1, k - 1);
      if k > 1 {
        assert UpvotesOrZero(s1.post.value) == UpvotesOrZero(s.post.value) + 1;
      }
    }
  }

  /** `handleAddComment`: a blank comment is not sent; otherwise the text is
      sent as typed, and on success the returned row is appended and the input
      cleared, while on failure nothing changes. */
  function AddComment(ctx: Context, s: PageState, inserted: Result<Comment>): (r: Step<PageState>)
    ensures IsBlank(s.newComment) ==> r == Step(s, [])
    ensures !IsBlank(s.newComment) ==> r.effects == [InsertComment(ctx.id, s.newComment, ctx.userId)]
    ensures inserted.Err? ==> r.state == s
    ensures !IsBlank(s.newComment) && inserted.Ok? ==>
      && |r.state.comments| == |s.comments| + 1
      && r.state.comments[..|s.comments|] == s.comments
      && r.state.comments[|s.comments|] == inserted.value
      && r.state.newComment == ""
      && r.state.(comments := s.comments, newComment := s.newComment) == s
  {
    if IsBlank(s.newComment) then Step(s, [])
    else
      var effects := [InsertComment(ctx.id, s.newComment, ctx.userId)];
      match inserted
      case Err(_) => Step(s, effects)
      case Ok(c) => Step(s.(comments := s.comments + [c], newComment := ""), effects)
  }

  /** Typing in the comment box. */
  function TypeComment(s: PageState, text: string): PageState {
    s.(newComment := text)
  }

  /** Comments typed and added one after another, each insert answering with
      the corresponding row of `rows`. */
  function CommentSeries(ctx: Context, s: PageState, texts: seq<string>, rows: seq<Comment>): Step<PageState>
    requires |rows| == |texts|
    decreases |texts|
  {
    if |texts| == 0 then Step(s, [])
    else
      var first := AddComment(ctx, TypeComment(s, texts[0]), Ok(rows[0]));
      var rest := CommentSeries(ctx, first.state, texts[1..], rows[1..]);
      Step(rest.state, first.effects + rest.effects)
  }

  /** A series whose first comment is not blank: that comment's insert and
      row, then the rest of the series from the state it leaves. */
  lemma CommentSeriesFirst(ctx: Context, s: PageState, texts: seq<string>, rows: seq<Comment>)
    requires |rows| == |texts| > 0 && !IsBlank(texts[0])
    ensures CommentSeries(ctx, s, texts, rows)
      == var rest := CommentSeries(ctx, s.(comments := s.comments + [rows[0]], newComment := ""), texts[1..], rows[1..]);
         Step(rest.state, [InsertComment(ctx.id, texts[0], ctx.userId)] + rest.effects)
  {
  }

  /** No text of the list is blank. */
  predicate NoneBlank(texts: seq<string>) {
    forall t :: t in texts ==> !IsBlank(t)
  }

  /** One comment insert per text, in order. */
  function Inserts(ctx: Context, texts: seq<string>): (e: seq<Effect>)
    ensures |e| == |texts|
    ensures forall i :: 0 <= i < |texts| ==> e[i] == InsertComment(ctx.id, texts[i], ctx.userId)
    decreases |texts|
  {
    if |texts| == 0 then [] else [InsertComment(ctx.id, texts[0], ctx.userId)] + Inserts(ctx, texts[1..])
  }

  /** `r` ends with the comments of `s` followed by `rows`, the same post,
      an empty input if anything was sent, and one insert per text, in order. */
  predicate Appended(ctx: Context, s: PageState, texts: seq<string>, rows: seq<Comment>, r: Step<PageState>) {
    && r.state.comments == s.comments + rows
    && r.state.post == s.post
    && (|texts| > 0 ==> r.state.newComment == "")
    && r.effects == Inserts(ctx, texts)
  }

  /** The inductive step: what holds for the rest of a series after the
      first comment holds for the whole series. */
  lemma AppendedStep(ctx: Context, s: PageState, texts: seq<string>, rows: seq<Comment>)
    requires |rows| == |texts| > 0 && !IsBlank(texts[0])
    requires var s1 := s.(comments := s.comments + [rows[0]], newComment := "");
      Appended(ctx, s1, texts[1..], rows[1..], CommentSeries(ctx, s1, texts[1..], rows[1..]))
    ensures Appended(ctx, s, texts, rows, CommentSeries(ctx, s, texts, rows))
  {
    CommentSeriesFirst(ctx, s, texts, rows);
    assert s.comments + [rows[0]] + rows[1..] == s.comments + rows;
  }

  /** After any number of successful non-blank comments the list is the
      starting list followed by the returned rows in order, one insert was
      sent per comment with its text, and the input is empty again. */
  lemma {:induction false} CommentSeriesAppends(ctx: Context, s: PageState, texts: seq<string>, rows: seq<Comment>)
    requires |rows| == |texts| && NoneBlank(texts)
    ensures Appended(ctx, s, texts, rows, CommentSeries(ctx, s, texts, rows))
    decreases |texts|
  {
    if |texts| > 0 {
      CommentSeriesAppends(ctx, s.(comments := s.comments + [rows[0]], newComment := ""), texts[1..], rows[1..]);
      AppendedStep(ctx, s, texts, rows);
    }
  }

  /** Comments added after a successful load come after the loaded rows,
      which stay first and in the order the backend sorted them. */
  lemma LoadedCommentsStayFirst(ctx: Context, s: PageState, loaded: seq<Comment>, texts: seq<string>, rows: seq<Comment>)
    requires |rows| == |texts| && NoneBlank(texts)
    ensures CommentSeries(ctx, LoadComments(s, Ok(Some(loaded))), texts, rows).state.comments == loaded + rows
  {
    CommentSeriesAppends(ctx, LoadComments(s, Ok(Some(loaded))), texts, rows);
  }

  /** `confirmDelete`: ask; if confirmed, delete; go to the feed only if the
      delete succeeded. */
  function ConfirmDelete(ctx: Context, confirmed: bool, deleted: Outcome): (e: seq<Effect>)
    ensures |e| > 0 && e[0] == AskConfirm(ConfirmDeleteMessage)
    ensures DeletePost(ctx.id) in e <==> confirmed
    ensures Navigate(HomePath) in e <==> confirmed && deleted.Pass?
    ensures forall k :: 0 <= k < |e| ==> e[k] != Navigate(EditPath(ctx.id))
  {
    [AskConfirm(ConfirmDeleteMessage)]
    + (if confirmed then [DeletePost(ctx.id)] + (if deleted.Pass? then [Navigate(HomePath)] else []) else [])
  }

  /** `handleEditClick`: the owner goes straight to the edit route; anyone
      else gets the secret-key prompt for an edit. */
  function EditClick(ctx: Context, s: PageState): (r: Step<PageState>)
    ensures s.isOwner ==> r == Step(s, [Navigate(EditPath(ctx.id))])
    ensures !s.isOwner ==> r.effects == []
    ensures !s.isOwner ==> r.state.showSecretKeyModal && r.state.actionType == Some(EditAction)
    ensures r.state.(showSecretKeyModal := s.showSecretKeyModal, actionType := s.actionType) == s
  {
    if s.isOwner then Step(s, [Navigate(EditPath(ctx.id))])
    else Step(s.(actionType := Some(EditAction), showSecretKeyModal := true), [])
  }

  /** `handleDeleteClick`: the owner goes straight to the delete confirmation;
      anyone else gets the secret-key prompt for a delete. */
  function DeleteClick(ctx: Context, s: PageState, confirmed: bool, deleted: Outcome): (r: Step<PageState>)
    ensures s.isOwner ==> r == Step(s, ConfirmDelete(ctx, confirmed, deleted))
    ensures !s.isOwner ==> r.effects == []
    ensures !s.isOwner ==> r.state.showSecretKeyModal && r.state.actionType == Some(DeleteAction)
    ensures r.state.(showSecretKeyModal := s.showSecretKeyModal, actionType := s.actionType) == s
  {
    if s.isOwner then Step(s, ConfirmDelete(ctx, confirmed, deleted))
    else Step(s.(actionType := Some(DeleteAction), showSecretKeyModal := true), [])
  }

  /** Typing in the secret-key field. */
  function TypeKey(s: PageState, text: string): PageState {
    s.(secretKey := text)
  }

  /** The prompt's Cancel button. */
  function CancelPrompt(s: PageState): PageState {
    s.(showSecretKeyModal := false)
  }

  /** The effects of the action the prompt was opened for. */
  function PendingAction(ctx: Context, a: Option<Action>, confirmed: bool, deleted: Outcome): seq<Effect> {
    match a
    case Some(EditAction) => [Navigate(EditPath(ctx.id))]
    case Some(DeleteAction) => ConfirmDelete(ctx, confirmed, deleted)
    case None => []
  }

  /** `handleSecretKeySubmit`: look the key up; on a wrong key alert and keep
      the prompt, on a right key close it and run exactly the pending action;
      clear the key field either way. */
  function SecretKeySubmit(ctx: Context, s: PageState, lookup: KeyLookup, confirmed: bool, deleted: Outcome): (r: Step<PageState>)
    ensures |r.effects| > 0 && r.effects[0] == LookupKey(ctx.id, s.secretKey)
    ensures r.state.secretKey == ""
    ensures !KeyAccepted(lookup) ==>
      r == Step(s.(secretKey := ""), [LookupKey(ctx.id, s.secretKey), Alert(InvalidKeyMessage)])
    ensures KeyAccepted(lookup) ==>
      r.state == s.(showSecretKeyModal := false, secretKey := "")
    ensures KeyAccepted(lookup) && s.actionType == Some(EditAction) ==>
      Navigate(EditPath(ctx.id)) in r.effects && forall e :: e in r.effects ==> !e.DeletePost?
    ensures KeyAccepted(lookup) && s.actionType == Some(DeleteAction) ==>
      Navigate(EditPath(ctx.id)) !in r.effects && (DeletePost(ctx.id) in r.effects <==> confirmed)
    ensures KeyAccepted(lookup) && s.actionType.None? ==> |r.effects| == 1
  {
    var lookedUp := [LookupKey(ctx.id, s.secretKey)];
    if KeyAccepted(lookup) then
      Step(s.(showSecretKeyModal := false, secretKey := ""),
           lookedUp + PendingAction(ctx, s.actionType, confirmed, deleted))
    else
      Step(s.(secretKey := ""), lookedUp + [Alert(InvalidKeyMessage)])
  }

  /** A non-owner who clicks a guarded button, types the right key and submits
      ends up with the same effects as the owner's click, after the lookup. */
  lemma KeyPathMatchesOwnerPath(ctx: Context, s: PageState, key: string, confirmed: bool, deleted: Outcome)
    requires !s.isOwner
    ensures var prompted := TypeKey(EditClick(ctx, s).state, key);
      SecretKeySubmit(ctx, prompted, RowFound, confirmed, deleted).effects
        == [LookupKey(ctx.id, key)] + EditClick(ctx, s.(isOwner := true)).effects
    ensures var prompted := TypeKey(DeleteClick(ctx, s, confirmed, deleted).state, key);
      SecretKeySubmit(ctx, prompted, RowFound, confirmed, deleted).effects
        == [LookupKey(ctx.id, key)] + DeleteClick(ctx, s.(isOwner := true), confirmed, deleted).effects
  {
  }

  /** A series of attempts with keys the backend rejects. */
  function FailedAttempts(ctx: Context, s: PageState, keys: seq<string>, lookups: seq<KeyLookup>): Step<PageState>
    requires |lookups| == |keys|
    requires forall i :: 0 <= i < |lookups| ==> !KeyAccepted(lookups[i])
    decreases |keys|
  {
    if |keys| == 0 then Step(s, [])
    else
      var first := SecretKeySubmit(ctx, TypeKey(s, keys[0]), lookups[0], false, Pass);
      var rest := FailedAttempts(ctx, first.state, keys[1..], lookups[1..]);
      Step(rest.state, first.effects + rest.effects)
  }

  /** However many wrong keys are tried, the prompt stays as it was, the
      pending action and the post are untouched, and no guarded action runs. */
  lemma {:induction false} FailedAttemptsGrantNothing(ctx: Context, s: PageState, keys: seq<string>, lookups: seq<KeyLookup>)
    requires |lookups| == |keys|
    requires forall i :: 0 <= i < |lookups| ==> !KeyAccepted(lookups[i])
    ensures var r := FailedAttempts(ctx, s, keys, lookups);
      && r.state.showSecretKeyModal == s.showSecretKeyModal
      && r.state.actionType == s.actionType
      && r.state.post == s.post
      && forall k :: 0 <= k < |r.effects| ==> !IsGuardedAction(r.effects[k], ctx.id)
    decreases |keys|
  {
    if |keys| > 0 {
      var first := SecretKeySubmit(ctx, TypeKey(s, keys[0]), lookups[0], false, Pass);
      FailedAttemptsGrantNothing(ctx, first.state, keys[1..], lookups[1..]);
      var rest := FailedAttempts(ctx, first.state, keys[1..], lookups[1..]);
      assert forall k :: 0 <= k < |first.effects| ==> !IsGuardedAction(first.effects[k], ctx.id);
      assert FailedAttempts(ctx, s, keys, lookups).effects == first.effects + rest.effects;
    }
  }
}
