/** The create-post form: validation of the required fields, the record it
    inserts, and the file name an uploaded image is stored under. */
module CreatePost {
  import opened Wrappers
  import opened JsStrings
  import opened JsNumbers
  import opened Remote

  /** The options of the category select. */
  datatype Category = Question | Opinion | Discussion | News

  function CategoryName(c: Category): string {
    match c
    case Question => "Question"
    case Opinion => "Opinion"
    case Discussion => "Discussion"
    case News => "News"
  }

  /** The form's fields as typed, plus the form's and the uploader's busy flags. */
  datatype Form = Form(
    title: string,
    content: string,
    imageUrl: string,
    secretKey: string,
    flag: Category,
    videoUrl: string,
    repostId: string,
    useLocalImage: bool,
    loading: bool,
    uploading: bool)

  /** The form as the page first shows it: every text empty, category "Question". */
  const Initial := Form("", "", "", "", Question, "", "", false, false, false)

  const TitleMissingMessage := "Please provide a title for your post."
  const KeyMissingMessage := "Please provide a secret key."

  /** `repostId ? parseInt(repostId) : null`. */
  function RepostOf(repostId: string): (r: Option<JsNumber>)
    ensures r.None? <==> repostId == ""
  {
    if repostId == "" then None else Some(ParseInt(repostId))
  }

  /** A repost field holding the decimal numeral of an id stores that id. */
  lemma RepostOfNumeral(n: int)
    ensures RepostOf(IntText(n)) == Some(Num(n))
  {
    ParseIntText(n);
  }

  /** A repost field of decimal digits stores their value, leading zeros and all. */
  lemma RepostOfDigits(repostId: string)
    requires |repostId| > 0 && AllDigits(repostId, 10)
    ensures RepostOf(repostId) == Some(Num(DigitsValue(repostId, 10)))
  {
    assert repostId + "" == repostId;
    ParseLeadingDigits(repostId, "");
  }

  /** The row inserted for a form filled in by user `userId`. */
  function InsertRecord(f: Form, userId: string): NewPost {
    NewPost(f.title, f.content, f.imageUrl, 0, userId, f.secretKey,
            CategoryName(f.flag), f.videoUrl, RepostOf(f.repostId))
  }

  /** `handleSubmit`: a blank title is refused first, then a blank secret key;
      otherwise exactly one insert is issued, followed by navigation to the new
      post or an error alert. */
  function Submit(f: Form, userId: string, inserted: Result<int>): (r: Step<Form>)
    ensures IsBlank(f.title) ==> r == Step(f, [Alert(TitleMissingMessage)])
    ensures !IsBlank(f.title) && IsBlank(f.secretKey) ==> r == Step(f, [Alert(KeyMissingMessage)])
    ensures !IsBlank(f.title) && !IsBlank(f.secretKey) ==>
      && |r.effects| == 2
      && r.effects[0] == InsertPost(InsertRecord(f, userId))
      && r.state == f.(loading := false)
    ensures !IsBlank(f.title) && !IsBlank(f.secretKey) && inserted.Ok? ==>
      r.effects[1] == Navigate(PostPath(IntText(inserted.value)))
    ensures !IsBlank(f.title) && !IsBlank(f.secretKey) && inserted.Err? ==>
      r.effects[1] == Alert("Error creating post: " + inserted.message)
  {
    if IsBlank(f.title) then Step(f, [Alert(TitleMissingMessage)])
    else if IsBlank(f.secretKey) then Step(f, [Alert(KeyMissingMessage)])
    else
      var outcome := match inserted
        case Ok(id) => Navigate(PostPath(IntText(id)))
        case Err(m) => Alert("Error creating post: " + m);
      Step(f.(loading := false), [InsertPost(InsertRecord(f, userId)), outcome])
  }

  /** Every insert the form issues stores the fields exactly as typed
      (untrimmed), no upvotes, the local user id, and the parsed repost id. */
  lemma SubmitInsertsAsTyped(f: Form, userId: string, inserted: Result<int>, k: nat)
    requires k < |Submit(f, userId, inserted).effects|
    requires Submit(f, userId, inserted).effects[k].InsertPost?
    ensures var rec := Submit(f, userId, inserted).effects[k].record;
      && !IsBlank(f.title) && !IsBlank(f.secretKey)
      && rec.title == f.title && rec.content == f.content && rec.secretKey == f.secretKey
      && rec.imageUrl == f.imageUrl && rec.videoUrl == f.videoUrl
      && rec.upvotes == 0 && rec.userId == userId
      && rec.flag == CategoryName(f.flag)
      && (rec.repostOf.None? <==> f.repostId == "")
  {
  }

  /** Filling in only a title and a key files the post under "Question", with
      empty optional fields and no repost. */
  lemma DefaultCategoryIsQuestion(title: string, key: string, userId: string, inserted: Result<int>)
    requires !IsBlank(title) && !IsBlank(key)
    ensures Submit(Initial.(title := title, secretKey := key), userId, inserted).effects[0]
      == InsertPost(NewPost(title, "", "", 0, userId, key, "Question", "", None))
  {
  }

  /** `file.name.split(".").pop()`: the text after the last "." of the name,
      or the whole name when it has no ".". */
  function Extension(name: string): (ext: string)
    ensures !Includes(ext, ".")
    ensures EndsWith(name, ext)
    ensures Includes(name, ".") ==> EndsWith(name, "." + ext)
    ensures !Includes(name, ".") ==> ext == name
  {
    var pieces := Split(name, ".");
    JoinEndsWithLast(pieces, ".");
    SplitPieces(name, ".");
    Last(pieces)
  }

  /** The storage path of an upload made at time `now` (milliseconds). */
  function UploadName(name: string, now: nat): (path: string)
    ensures path == Decimal(now) + "." + Extension(name)
    ensures ParseInt(path) == Num(now)
  {
    var path := Decimal(now) + "." + Extension(name);
    assert path == Decimal(now) + ("." + Extension(name));
    ParseLeadingDigits(Decimal(now), "." + Extension(name));
    path
  }

  /** `ImageUpload.handleFileChange`: with a file chosen, upload it under
      `UploadName`; on success the public URL becomes the form's image URL, on
      failure an alert is shown and the image URL is kept. */
  function ChooseFile(f: Form, file: Option<string>, now: nat, uploaded: Outcome, publicUrl: string): (r: Step<Form>)
    ensures file.None? ==> r == Step(f, [])
    ensures file.Some? ==> |r.effects| > 0 && r.effects[0] == UploadImage(UploadName(file.value, now))
    ensures file.Some? ==> !r.state.uploading
    ensures file.Some? && uploaded.Pass? ==> r.state == f.(imageUrl := publicUrl, uploading := false)
    ensures file.Some? && uploaded.Fail? ==>
      r == Step(f.(uploading := false), [UploadImage(UploadName(file.value, now)), Alert("Upload failed: " + uploaded.message)])
  {
    match file
    case None => Step(f, [])
    case Some(name) =>
      var path := UploadName(name, now);
      match uploaded
      case Fail(m) => Step(f.(uploading := false), [UploadImage(path), Alert("Upload failed: " + m)])
      case Pass => Step(f.(imageUrl := publicUrl, uploading := false), [UploadImage(path)])
  }
}
