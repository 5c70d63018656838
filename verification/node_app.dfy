/**
 * The Node server (webapp/nodejs/index.js). The session holds a user id, 0
 * meaning none. Query and form values reach MySQL as strings, and the pool
 * leaves the server's default SQL mode, taken here as non-strict: a string
 * compared with an integer column is compared as a number (`MySqlEquals`,
 * `MySqlAbove`), and one stored into an integer column is rounded, with a
 * warning only (`MySqlStored`).
 */
module NodeApp {
  import opened Base
  import opened Text
  import opened Numbers
  import opened Store
  import opened Engine

  const AvatarMaxSize: nat := 1 * 1024 * 1024

  // ---------------------------------------------------------------------------
  // Users
  // ---------------------------------------------------------------------------

  /**
   * randomString(len): `while (--len)` decrements before testing, so only
   * len - 1 characters are appended; len = 0 would never stop.
   */
  method RandomString(len: nat, draws: seq<nat>) returns (str: string)
    requires len >= 1
    requires |draws| >= len - 1 && ValidDraws(DigitsLetters, draws)
    ensures str == Drawn(DigitsLetters, len - 1, draws)
    ensures |str| == len - 1
  {
    str := "";
    var l := len - 1;
    while l != 0
      invariant 0 <= l && |str| + l == len - 1
      invariant forall k :: 0 <= k < |str| ==> str[k] == DigitsLetters[draws[k]]
    {
      str := str + [DigitsLetters[draws[|str|]]];
      l := l - 1;
    }
  }

  /**
   * POST /register: an empty name or password is 400; an insert that fails
   * (the name is taken) is 409; otherwise the new user, whose salt is
   * randomString(20), is logged in and redirected.
   */
  method PostRegister(db: Db, name: string, password: string, saltDraws: seq<nat>, sha1: string -> string)
    returns (r: Response<()>)
    requires db.Valid()
    requires |saltDraws| >= 19 && ValidDraws(DigitsLetters, saltDraws)
    modifies db
    ensures db.Valid()
    ensures db.messages == old(db.messages) && db.haveread == old(db.haveread) && db.channels == old(db.channels)
    ensures db.images == old(db.images) && db.nextChannelId == old(db.nextChannelId)
    ensures db.nextMessageId == old(db.nextMessageId) && db.nextImageId == old(db.nextImageId)
    ensures db.nextUserId == old(db.nextUserId) + (if r.Redirect? then 1 else 0)
    ensures name == "" || password == "" ==> r == Error(400) && db.users == old(db.users)
    ensures name != "" && password != "" && UserByName(old(db.users), name).Some? ==>
      r == Error(409) && db.users == old(db.users)
    ensures name != "" && password != "" && UserByName(old(db.users), name).None? ==>
      var salt := Drawn(DigitsLetters, 19, saltDraws);
      && r == Redirect("/", Some(old(db.nextUserId)))
      && db.users == old(db.users) + [User(old(db.nextUserId), name, salt, sha1(salt + password), name, "default.png")]
  {
    if name == "" || password == "" {
      return Error(400);
    }
    var salt := RandomString(20, saltDraws);
    var id := db.AddUser(name, salt, sha1(salt + password), name);
    if id.None? {
      return Error(409);
    }
    r := Redirect("/", Some(id.value));
  }

  /** POST /login: no user of that name, or a digest mismatch, is 403; otherwise redirect. */
  function PostLogin(users: seq<User>, name: string, password: string, sha1: string -> string): (r: Response<()>)
    ensures r.Redirect? <==>
      UserByName(users, name).Some? && sha1(UserByName(users, name).value.salt + password) == UserByName(users, name).value.password
    ensures r.Redirect? ==> r == Redirect("/", Some(UserByName(users, name).value.id))
    ensures !r.Redirect? ==> r == Error(403)
  {
    match UserByName(users, name)
    case None => Error(403)
    case Some(u) => if u.password == sha1(u.salt + password) then Redirect("/", Some(u.id)) else Error(403)
  }

  /** dbGetUser for the session's id (no row for an absent session). */
  function SessionUser(users: seq<User>, session: int): (u: Option<User>)
    ensures u.Some? ==> session != 0 && u.value in users && u.value.id == session
    ensures u.None? <==> session == 0 || forall v :: v in users ==> v.id != session
  {
    if session == 0 then None else UserById(users, session)
  }

  // ---------------------------------------------------------------------------
  // Messages
  // ---------------------------------------------------------------------------

  /**
   * POST /message: no user, an empty channel_id or an empty message is 403;
   * otherwise one message is appended and the answer is 204.
   */
  method PostMessage(db: Db, session: int, channelId: string, message: string) returns (r: Response<()>)
    requires db.Valid()
    modifies db
    ensures db.Valid()
    ensures db.users == old(db.users) && db.haveread == old(db.haveread) && db.channels == old(db.channels)
    ensures db.images == old(db.images) && db.nextUserId == old(db.nextUserId)
    ensures db.nextChannelId == old(db.nextChannelId) && db.nextImageId == old(db.nextImageId)
    ensures SessionUser(old(db.users), session).None? || channelId == "" || message == "" ==>
      r == Error(403) && db.messages == old(db.messages) && db.nextMessageId == old(db.nextMessageId)
    ensures SessionUser(old(db.users), session).Some? && channelId != "" && message != "" ==>
      && r == NoContent
      && db.messages == old(db.messages) + [Message(old(db.nextMessageId), MySqlStored(channelId), session, message)]
      && db.nextMessageId == old(db.nextMessageId) + 1
  {
    var user := SessionUser(db.users, session);
    if user.None? || channelId == "" || message == "" {
      return Error(403);
    }
    var _ := db.AddMessage(MySqlStored(channelId), session, message);
    r := NoContent;
  }

  /** zeroPadd(num, digit): the last `digit` characters of `digit` zeros followed by num. */
  function ZeroPadd(num: nat, digit: nat): (r: string)
    ensures digit > 0 ==> |r| == digit
    ensures digit == 0 ==> r == NatToString(num)
    ensures forall i :: 0 <= i < |r| ==> IsDigit(r[i])
  {
    var s := Repeat('0', digit) + NatToString(num);
    // slice(-0) is slice(0): the whole string
    if digit == 0 then s else s[|s| - digit..]
  }

  /** A number that fits in `digit` places is padded on the left and reads back as itself. */
  lemma ZeroPaddKeepsValue(num: nat, digit: nat)
    requires |NatToString(num)| <= digit
    ensures ZeroPadd(num, digit) == Repeat('0', digit - |NatToString(num)|) + NatToString(num)
    ensures DigitsValue(ZeroPadd(num, digit)) == num
  {
    var t := NatToString(num);
    var s := Repeat('0', digit) + t;
    var z := digit - |t|;
    assert s[|s| - digit..] == Repeat('0', z) + t;
    LeadingZeros(z, t);
    DigitsValueOfNatToString(num);
  }

  /**
   * GET /message: no session is 403 and changes nothing; otherwise the newest
   * 100 messages after last_message_id, oldest first, with their authors
   * (null when missing), and the cursor is set to the newest id, or to 0
   * when nothing came back.
   */
  method GetMessage(db: Db, session: int, channelId: string, lastMessageId: string)
    returns (r: Response<seq<JsonMessage>>)
    requires db.Valid()
    modifies db
    ensures db.Valid()
    ensures db.users == old(db.users) && db.messages == old(db.messages) && db.channels == old(db.channels)
    ensures db.images == old(db.images) && db.nextUserId == old(db.nextUserId) && db.nextChannelId == old(db.nextChannelId)
    ensures db.nextMessageId == old(db.nextMessageId) && db.nextImageId == old(db.nextImageId)
    ensures session == 0 ==> r == Error(403) && db.haveread == old(db.haveread)
    ensures session != 0 ==>
      var f := FetchWhere(db.messages, MySqlEquals(channelId), MySqlAbove(lastMessageId));
      && r == Ok(Render(db.users, f))
      && db.haveread == old(db.haveread)[(session, MySqlStored(channelId)) := CursorAfter(f)]
  {
    if session == 0 {
      return Error(403);
    }
    var ch := MySqlEquals(channelId);
    var last := MySqlAbove(lastMessageId);
    var rows := [];
    if ch.Some? {
      rows := NewestDesc(db.messages, ch.value, last, FetchLimit);
      ghost var f := Fetch(db.messages, ch.value, last);
      ReverseReverse(f);
      CursorOfNewestDesc(db.messages, ch.value, last, db.nextMessageId, db.haveread);
    }
    var response := RenderNewestFirst(db.users, rows);
    var maxMessageId := CursorAfter(rows);
    db.UpsertHaveRead(session, MySqlStored(channelId), maxMessageId);
    r := Ok(response);
  }

  /** GET /fetch: no session is 403; otherwise one unread count per channel, in table order. */
  method FetchUnread(db: Db, session: int) returns (r: Response<seq<UnreadInfo>>)
    requires db.Valid()
    ensures session == 0 ==> r == Error(403)
    ensures session != 0 ==> r.Ok? && |r.body| == |db.channels|
    ensures session != 0 ==> forall i :: 0 <= i < |db.channels| ==>
      r.body[i] == UnreadInfo(db.channels[i].id, Unread(db.messages, Cursor(db.haveread, session, db.channels[i].id), db.channels[i].id))
  {
    if session == 0 {
      return Error(403);
    }
    var results := UnreadCounts(db.messages, db.haveread, session, ChannelIds(db.channels));
    r := Ok(results);
  }

  /** The page number getHistory reads: parseInt of the query, '1' when absent or empty. */
  function PageParam(page: string): (p: Option<int>)
    ensures page == "" ==> p == Some(1)
    ensures AllDigits(page) ==> p == Some(DigitsValue(page))
    ensures page != "" && p.Some? ==> exists i :: 0 <= i < |page| && IsDigit(page[i])
  {
    assert AllDigits("1") && DigitsValue("1") == 1;
    JsParseInt(if page == "" then "1" else page)
  }

  /**
   * GET /history/:channelId: not logged in redirects; a page that is NaN,
   * below 1 or above maxPage is 400; otherwise the page's messages oldest
   * first, the page number and maxPage = max(ceil(cnt / 20), 1).
   */
  method GetHistory(db: Db, session: int, channelId: string, page: string) returns (r: Response<HistoryView>)
    requires db.Valid()
    ensures session == 0 ==> r == Redirect("/login", None)
    ensures session != 0 && !PageInRange(PageParam(page), CountWhere(db.messages, MySqlEquals(channelId))) ==>
      r == Error(400)
    ensures session != 0 && PageInRange(PageParam(page), CountWhere(db.messages, MySqlEquals(channelId))) ==>
      var ch := MySqlEquals(channelId);
      var p := PageParam(page).value;
      r == Ok(HistoryView(Render(db.users, HistoryPageWhere(db.messages, ch, p)), p, MaxPage(CountWhere(db.messages, ch))))
  {
    if session == 0 {
      return Redirect("/login", None);
    }
    var ch := MySqlEquals(channelId);
    var p := PageParam(page);
    var cnt := CountWhere(db.messages, ch);
    var maxPage := MaxPage(cnt);
    if p.None? || p.value < 1 || p.value > maxPage {
      return Error(400);
    }
    if ch.None? {
      return Ok(HistoryView(Render(db.users, []), p.value, maxPage));
    }
    r := HistoryResponse(db.users, db.messages, ch.value, p.value, maxPage);
  }

  /** getChannelListInfo: the loop keeps the description of the last channel matching the focus. */
  method ChannelListInfo(channels: seq<Channel>, focus: int) returns (description: string)
    ensures description == LastDescription(channels, focus)
    ensures UniqueChannelIds(channels) ==> forall k :: 0 <= k < |channels| && channels[k].id == focus ==>
      description == channels[k].description
  {
    description := "";
    for i := 0 to |channels|
      invariant description == LastDescription(channels[..i], focus)
    {
      assert channels[..i + 1][..i] == channels[..i];
      if channels[i].id == focus {
        description := channels[i].description;
      }
    }
    assert channels[..|channels|] == channels;
    forall k | UniqueChannelIds(channels) && 0 <= k < |channels| && channels[k].id == focus
      ensures description == channels[k].description
    {
      LastDescriptionOf(channels, focus, k);
    }
  }

  // ---------------------------------------------------------------------------
  // Avatars
  // ---------------------------------------------------------------------------

  /**
   * path.extname for a bare file name: from the last '.', except that a name
   * whose only '.' is its first character, and the name "..", have none.
   */
  function ExtName(name: string): (ext: string)
    ensures ext != "" ==> ext[0] == '.' && '.' !in ext[1..] && HasSuffix(name, ext)
    ensures '.' !in name ==> ext == ""
  {
    match LastIndexOf(name, '.')
    case None => ""
    case Some(i) => if i == 0 || name == ".." then "" else name[i..]
  }

  /**
   * A non-empty stem followed by an extension has that extension, unless the
   * name is ".."; with ExtName's own contract, the extension is exactly what
   * follows the last '.' whenever that dot is not the first character.
   */
  lemma ExtNameOfStem(stem: string, ext: string)
    requires stem != [] && stem + ext != ".."
    requires |ext| >= 1 && ext[0] == '.' && '.' !in ext[1..]
    ensures ExtName(stem + ext) == ext
  {
    var n := stem + ext;
    LastDot(stem, ext);
    assert n[|stem|..] == ext;
  }

  predicate Accepted(ext: string) {
    ext == ".jpg" || ext == ".jpeg" || ext == ".png" || ext == ".gif"
  }

  /** The stored name of an avatar: digest + "." + ext, where ext already starts with a dot. */
  function AvatarName(digest: string, ext: string): (n: string)
    ensures Accepted(ext) ==> ExtName(n) == ext
  {
    var n := digest + "." + ext;
    assert Accepted(ext) ==> n[|digest| + 1] == '.' && n[|digest| + 1..] == ext && '.' !in ext[1..];
    n
  }

  /**
   * The avatar name has a double dot, yet extname still finds the original
   * extension in it, so getIcon serves the avatar with a proper type.
   */
  lemma AvatarNameIsServed(digest: string, ext: string)
    requires Accepted(ext)
    ensures AvatarName(digest, ext)[|digest|..|digest| + 2] == ".."
    ensures ExtName(AvatarName(digest, ext)) == ext
    ensures MimeOfExt(ExtName(AvatarName(digest, ext))) != ""
  {
    var n := AvatarName(digest, ext);
    var d := |digest| + 1;
    assert n[d] == '.' && n[d..] == ext;
    assert '.' !in ext[1..];
  }

  /**
   * POST /profile: not logged in redirects; a missing user is 403; an upload
   * with a name whose extension is not one of the four image types, or
   * larger than 1 MiB, is 400; otherwise an accepted upload is stored and
   * becomes the icon, a non-empty display name replaces the old one, and the
   * answer redirects to "/".
   */
  method PostProfile(db: Db, session: int, avatar: Option<Upload>, displayName: string, sha1: seq<int> -> string)
    returns (r: Response<()>)
    requires db.Valid()
    modifies db
    ensures db.Valid()
    ensures db.messages == old(db.messages) && db.haveread == old(db.haveread) && db.channels == old(db.channels)
    ensures db.nextUserId == old(db.nextUserId) && db.nextChannelId == old(db.nextChannelId)
    ensures db.nextMessageId == old(db.nextMessageId) && db.nextImageId == old(db.nextImageId) + |db.images| - |old(db.images)|
    ensures session == 0 ==> r == Redirect("/login", None) && db.users == old(db.users) && db.images == old(db.images)
    ensures session != 0 && UserById(old(db.users), session).None? ==>
      r == Error(403) && db.users == old(db.users) && db.images == old(db.images)
    ensures session != 0 && UserById(old(db.users), session).Some? && Uploaded(avatar) && !AvatarAcceptable(avatar.value) ==>
      r == Error(400) && db.users == old(db.users) && db.images == old(db.images)
    ensures session != 0 && UserById(old(db.users), session).Some? && (Uploaded(avatar) ==> AvatarAcceptable(avatar.value)) ==>
      var icon := if Uploaded(avatar) then Some(AvatarName(sha1(avatar.value.data), ExtName(avatar.value.filename))) else None;
      && r == Redirect("/", None)
      && db.users == UpdatedProfile(old(db.users), session, icon, NonEmpty(displayName))
      && db.images == old(db.images) + (if icon.Some? then [Image(old(db.nextImageId), icon.value, avatar.value.data)] else [])
  {
    if session == 0 {
      return Redirect("/login", None);
    }
    var user := UserById(db.users, session);
    if user.None? {
      return Error(403);
    }
    var avatarName := "";
    var avatarData: seq<int> := [];
    if avatar.Some? && avatar.value.filename != "" {
      var ext := ExtName(avatar.value.filename);
      if !Accepted(ext) {
        return Error(400);
      }
      if |avatar.value.data| > AvatarMaxSize {
        return Error(400);
      }
      avatarName := AvatarName(sha1(avatar.value.data), ext);
      avatarData := avatar.value.data;
    }
    // avatarData is a Buffer, truthy even when empty: only the name decides
    var stored := avatarName != "";
    ApplyProfile(db, session, if stored then Some(avatarName) else None,
      if stored then Some(avatarData) else None, NonEmpty(displayName));
    r := Redirect("/", None);
  }

  /** A file part with a non-empty original name (an empty one is ignored). */
  predicate Uploaded(avatar: Option<Upload>) {
    avatar.Some? && avatar.value.filename != ""
  }

  predicate AvatarAcceptable(up: Upload) {
    Accepted(ExtName(up.filename)) && |up.data| <= AvatarMaxSize
  }

  /** GET /icons/:fileName: a missing row or an extension without a MIME type is 404. */
  function GetIcon(images: seq<Image>, fileName: string): (r: Response<(string, seq<int>)>)
    ensures r.Error? <==> ImageByName(images, fileName).None? || MimeOfExt(ExtName(fileName)) == ""
    ensures r.Error? ==> r.code == 404
    ensures r.Ok? ==> r.body == (MimeOfExt(ExtName(fileName)), ImageByName(images, fileName).value.data)
  {
    var row := ImageByName(images, fileName);
    var mime := MimeOfExt(ExtName(fileName));
    if row.None? || mime == "" then Error(404) else Ok((mime, row.value.data))
  }
}
