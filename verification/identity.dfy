/** The per-browser user id: read from local storage under "userId" and, when
    missing, generated once and stored. The same logic appears as
    `getOrCreateUserId` on the create page and as `getUserId` on the post page.
    Local storage, `crypto.randomUUID` and `Date.now` are parameters. */
module Identity {
  import opened Wrappers
  import opened JsStrings
  import opened JsNumbers

  /** A string `crypto.randomUUID()` can return: 36 characters. */
  type Uuid = s: string | |s| == 36 witness "00000000-0000-0000-0000-000000000000"

  /** The id generated when none is stored: the random UUID when the browser
      offers `crypto.randomUUID` (`uuid` is then `Some`), otherwise "user-"
      followed by the current time in milliseconds. */
  function FreshId(uuid: Option<Uuid>, now: nat): (r: string)
    ensures r != ""
    ensures uuid.Some? ==> r == uuid.value
    ensures uuid.None? ==> |r| > 5 && r[..5] == "user-" && ParseInt(r[5..]) == Num(now)
  {
    match uuid
    case Some(u) => u
    case None =>
      var r := "user-" + Decimal(now);
      assert r[5..] == IntText(now);
      ParseIntText(now);
      r
  }

  /** The id returned and the storage slot afterwards. */
  datatype Identified = Identified(userId: string, stored: Option<string>)

  /** `getOrCreateUserId()`: `stored` is what `localStorage.getItem("userId")`
      gives (`None` for null). Both null and the falsy empty string count as
      missing. */
  function GetOrCreateUserId(stored: Option<string>, uuid: Option<Uuid>, now: nat): (r: Identified)
    ensures r.userId != "" && r.stored == Some(r.userId)
    ensures stored.Some? && stored.value != "" ==> r == Identified(stored.value, stored)
    ensures stored == None || stored == Some("") ==> r.userId == FreshId(uuid, now)
  {
    if stored.None? || stored.value == "" then
      var id := FreshId(uuid, now);
      Identified(id, Some(id))
    else Identified(stored.value, stored)
  }

  /** Asking twice gives the first answer again and leaves storage as the first
      call left it, whatever the second call's UUID and clock would have been. */
  lemma GetOrCreateIdempotent(stored: Option<string>, uuid1: Option<Uuid>, now1: nat, uuid2: Option<Uuid>, now2: nat)
    ensures var first := GetOrCreateUserId(stored, uuid1, now1);
      GetOrCreateUserId(first.stored, uuid2, now2) == first
  {
  }
}
