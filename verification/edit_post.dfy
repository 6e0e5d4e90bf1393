/** The edit page: the form is filled from the stored post, and nothing can be
    written until the secret key has been verified in this page session; the
    update then writes the title, content and image URL only. */
module EditPost {
  import opened Wrappers
  import opened JsStrings
  import opened Remote

  datatype EditState = EditState(
    title: string,
    content: string,
    imageUrl: string,
    secretKey: string,
    isVerified: bool,
    loading: bool)

  /** The page before the post is loaded: empty fields, not verified. */
  const Initial := EditState("", "", "", "", false, true)

  const EnterKeyMessage := "Please enter the secret key"
  const InvalidKeyMessage := "Invalid secret key. You are not authorized to edit this post."
  const TitleMissingMessage := "Please provide a title for your post."

  /** The columns `select("title, content, image_url")` returns. */
  datatype Fields = Fields(title: Option<string>, content: Option<string>, imageUrl: Option<string>)

  /** `fetchPost`: on error back to the feed; otherwise each field is shown as
      stored, a null column as the empty string. */
  function LoadForm(s: EditState, fetched: Result<Fields>): (r: Step<EditState>)
    ensures !r.state.loading && r.state.isVerified == s.isVerified && r.state.secretKey == s.secretKey
    ensures fetched.Err? ==> r == Step(s.(loading := false), [Navigate(HomePath)])
    ensures fetched.Ok? ==> r.effects == []
    ensures fetched.Ok? ==> r.state.title == (if fetched.value.title.Some? then fetched.value.title.value else "")
    ensures fetched.Ok? ==> r.state.content == (if fetched.value.content.Some? then fetched.value.content.value else "")
    ensures fetched.Ok? ==> r.state.imageUrl == (if fetched.value.imageUrl.Some? then fetched.value.imageUrl.value else "")
  {
    match fetched
    case Err(_) => Step(s.(loading := false), [Navigate(HomePath)])
    case Ok(f) =>
      Step(s.(title := f.title.GetOr(""), content := f.content.GetOr(""),
              imageUrl := f.imageUrl.GetOr(""), loading := false), [])
  }

  /** `verifySecretKey`: a blank key is refused without a lookup; otherwise
      the key is looked up with the route id and, if accepted, the page
      becomes verified. Nothing here makes it unverified. */
  function VerifyKey(id: string, s: EditState, lookup: KeyLookup): (r: Step<EditState>)
    ensures IsBlank(s.secretKey) ==> r == Step(s, [Alert(EnterKeyMessage)])
    ensures !IsBlank(s.secretKey) ==> |r.effects| > 0 && r.effects[0] == LookupKey(id, s.secretKey)
    ensures !IsBlank(s.secretKey) && KeyAccepted(lookup) ==> r == Step(s.(isVerified := true), [LookupKey(id, s.secretKey)])
    ensures !IsBlank(s.secretKey) && !KeyAccepted(lookup) ==> r.state == s
    ensures r.state.(isVerified := s.isVerified) == s
    ensures s.isVerified ==> r.state.isVerified
    ensures forall k :: 0 <= k < |r.effects| ==> !r.effects[k].UpdatePost?
  {
    if IsBlank(s.secretKey) then Step(s, [Alert(EnterKeyMessage)])
    else if KeyAccepted(lookup) then Step(s.(isVerified := true), [LookupKey(id, s.secretKey)])
    else Step(s, [LookupKey(id, s.secretKey), Alert(InvalidKeyMessage)])
  }

  /** `handleSubmit`: unverified, it runs the key check instead of updating;
      verified, a blank title is refused, and otherwise one update of exactly
      title, content and image URL is sent, then the post is shown or an
      error alerted. */
  function Submit(id: string, s: EditState, lookup: KeyLookup, updated: Outcome): (r: Step<EditState>)
    ensures !s.isVerified ==> r == VerifyKey(id, s, lookup)
    ensures !s.isVerified ==> forall k :: 0 <= k < |r.effects| ==> !r.effects[k].UpdatePost?
    ensures s.isVerified && IsBlank(s.title) ==> r == Step(s, [Alert(TitleMissingMessage)])
    ensures s.isVerified && !IsBlank(s.title) ==>
      && |r.effects| == 2
      && r.effects[0] == UpdatePost(id, PostEdit(s.title, s.content, s.imageUrl))
      && r.state == s.(loading := false)
    ensures s.isVerified && !IsBlank(s.title) && updated.Pass? ==> r.effects[1] == Navigate(PostPath(id))
    ensures s.isVerified && !IsBlank(s.title) && updated.Fail? ==>
      r.effects[1] == Alert("Error updating post: " + updated.message)
  {
    if !s.isVerified then VerifyKey(id, s, lookup)
    else if IsBlank(s.title) then Step(s, [Alert(TitleMissingMessage)])
    else
      var after := match updated
        case Pass => Navigate(PostPath(id))
        case Fail(m) => Alert("Error updating post: " + m);
      Step(s.(loading := false), [UpdatePost(id, PostEdit(s.title, s.content, s.imageUrl)), after])
  }

  /** What a partial update with `payload` does to the stored row. */
  function ApplyEdit(p: Post, payload: PostEdit): (q: Post)
    ensures q.title == Some(payload.title) && q.content == Some(payload.content)
    ensures q.imageUrl == Some(payload.imageUrl)
    ensures q.(title := p.title, content := p.content, imageUrl := p.imageUrl) == p
  {
    p.(title := Some(payload.title), content := Some(payload.content), imageUrl := Some(payload.imageUrl))
  }

  /** An edit never touches the secret key, the category, the video, the
      repost reference, the upvotes, the author or the creation time. */
  lemma EditKeepsOtherColumns(p: Post, payload: PostEdit)
    ensures var q := ApplyEdit(p, payload);
      && q.id == p.id && q.secretKey == p.secretKey && q.flag == p.flag
      && q.videoUrl == p.videoUrl && q.repostOf == p.repostOf && q.upvotes == p.upvotes
      && q.userId == p.userId && q.createdAt == p.createdAt
  {
  }

  /** The columns the page selects from a stored row. */
  function Selected(p: Post): Fields {
    Fields(p.title, p.content, p.imageUrl)
  }

  /** The user-visible events of the page, with what the backend answered. */
  datatype Event =
    | Loaded(fetched: Result<Fields>)
    | KeyTyped(key: string)
    | TitleTyped(title: string)
    | ContentTyped(content: string)
    | ImageUrlTyped(imageUrl: string)
    | VerifyClicked(lookup: KeyLookup)
    | Submitted(lookup: KeyLookup, updated: Outcome)

  function Handle(id: string, s: EditState, e: Event): Step<EditState> {
    match e
    case Loaded(fetched) => LoadForm(s, fetched)
    case KeyTyped(k) => Step(s.(secretKey := k), [])
    case TitleTyped(t) => Step(s.(title := t), [])
    case ContentTyped(c) => Step(s.(content := c), [])
    case ImageUrlTyped(u) => Step(s.(imageUrl := u), [])
    case VerifyClicked(lookup) => VerifyKey(id, s, lookup)
    case Submitted(lookup, updated) => Submit(id, s, lookup, updated)
  }

  /** A single event sends an update only from a verified page with a
      non-blank title, and only for the route's post. */
  lemma HandleUpdates(id: string, s: EditState, e: Event, k: nat)
    requires k < |Handle(id, s, e).effects| && Handle(id, s, e).effects[k].UpdatePost?
    ensures s.isVerified && Handle(id, s, e).state.isVerified
    ensures Handle(id, s, e).effects[k] == UpdatePost(id, PostEdit(s.title, s.content, s.imageUrl))
    ensures !IsBlank(s.title)
  {
  }

  /** A page session: the events in order, with all effects concatenated. */
  function Run(id: string, s: EditState, events: seq<Event>): Step<EditState>
    decreases |events|
  {
    if |events| == 0 then Step(s, [])
    else
      var first := Handle(id, s, events[0]);
      var rest := Run(id, first.state, events[1..]);
      Step(rest.state, first.effects + rest.effects)
  }

  /** No single event unverifies the page. */
  lemma HandleKeepsVerified(id: string, s: EditState, e: Event)
    requires s.isVerified
    ensures Handle(id, s, e).state.isVerified
  {
  }

  /** Once verified, a page stays verified whatever happens next. */
  lemma {:induction false} VerifiedStaysVerified(id: string, s: EditState, events: seq<Event>)
    requires s.isVerified
    ensures Run(id, s, events).state.isVerified
    decreases |events|
  {
    if |events| > 0 {
      var first := Handle(id, s, events[0]);
      HandleKeepsVerified(id, s, events[0]);
      VerifiedStaysVerified(id, first.state, events[1..]);
      assert Run(id, s, events).state == Run(id, first.state, events[1..]).state;
    }
  }

  /** Every update in `r` targets the route's post with a non-blank title,
      and `r` ends verified if it holds any update at all. */
  predicate UpdatesSound(id: string, r: Step<EditState>) {
    forall k :: 0 <= k < |r.effects| && r.effects[k].UpdatePost? ==>
      && r.state.isVerified
      && r.effects[k].postId == id
      && !IsBlank(r.effects[k].payload.title)
  }

  /** Every update a session sends comes from a verified page, so the session
      ends verified; it targets the route's post, and its title is not blank. */
  lemma {:induction false} UpdatesOnlyWhenVerified(id: string, s: EditState, events: seq<Event>)
    ensures UpdatesSound(id, Run(id, s, events))
    decreases |events|
  {
    if |events| > 0 {
      var first := Handle(id, s, events[0]);
      var rest := Run(id, first.state, events[1..]);
      UpdatesOnlyWhenVerified(id, first.state, events[1..]);
      var r := Run(id, s, events);
      assert r.effects == first.effects + rest.effects && r.state == rest.state;
      forall k | 0 <= k < |r.effects| && r.effects[k].UpdatePost?
        ensures r.state.isVerified && r.effects[k].postId == id && !IsBlank(r.effects[k].payload.title)
      {
        if k >= |first.effects| {
          assert r.effects[k] == rest.effects[k - |first.effects|];
        } else {
          assert r.effects[k] == first.effects[k];
          HandleUpdates(id, s, events[0], k);
          VerifiedStaysVerified(id, first.state, events[1..]);
        }
      }
    }
  }

  /** A session that ends unverified never sent an update. */
  lemma UnverifiedSessionNeverUpdates(id: string, s: EditState, events: seq<Event>)
    requires !Run(id, s, events).state.isVerified
    ensures forall e :: e in Run(id, s, events).effects ==> !e.UpdatePost?
  {
    UpdatesOnlyWhenVerified(id, s, events);
    var r := Run(id, s, events);
    forall e | e in r.effects
      ensures !e.UpdatePost?
    {
      var k :| 0 <= k < |r.effects| && r.effects[k] == e;
    }
  }

  /** Loading a row, typing its key, verifying and saving without touching
      the fields: with a non-blank stored title, the update sends the stored
      title, content and image URL, a null column as "", and a row without
      nulls in those columns comes back from it unchanged; with a null or
      blank title, the save is refused. */
  lemma UntouchedSaveRoundTrip(id: string, p: Post, key: string)
    requires !IsBlank(key)
    ensures var r := Run(id, Initial, [Loaded(Ok(Selected(p))), KeyTyped(key), VerifyClicked(RowFound), Submitted(RowFound, Pass)]);
      var payload := PostEdit(p.title.GetOr(""), p.content.GetOr(""), p.imageUrl.GetOr(""));
      && (p.title.Some? && !IsBlank(p.title.value) ==>
            r.effects == [LookupKey(id, key), UpdatePost(id, payload), Navigate(PostPath(id))])
      && (p.title.None? || IsBlank(p.title.value) ==>
            r.effects == [LookupKey(id, key), Alert(TitleMissingMessage)])
      && (p.title.Some? && p.content.Some? && p.imageUrl.Some? ==> ApplyEdit(p, payload) == p)
      && (p.content.None? ==> ApplyEdit(p, payload).content == Some(""))
      && (p.imageUrl.None? ==> ApplyEdit(p, payload).imageUrl == Some(""))
  {
    var events := [Loaded(Ok(Selected(p))), KeyTyped(key), VerifyClicked(RowFound), Submitted(RowFound, Pass)];
    var s1 := Handle(id, Initial, events[0]).state;
    var s2 := s1.(secretKey := key);
    var s3 := s2.(isVerified := true);
    var last := Handle(id, s3, events[3]);
    assert Run(id, s3, events[3..]) == Step(last.state, last.effects + []) by {
      assert events[3..][1..] == [];
    }
    assert Run(id, s2, events[2..]) == Step(last.state, [LookupKey(id, key)] + last.effects) by {
      assert events[2..][1..] == events[3..];
    }
    assert Run(id, s1, events[1..]).effects == [LookupKey(id, key)] + last.effects by {
      assert events[1..][1..] == events[2..];
    }
    assert Run(id, Initial, events).effects == [LookupKey(id, key)] + last.effects;
  }
}
