/**
 * The PHP server (webapp/php/index.php). The session is the `user_id`
 * cookie, a string; PHP treats "" and "0" as false. The cookie and query
 * values reach MySQL as strings: compared with an integer column they are
 * read as numbers (`MySqlEquals`, `MySqlAbove`), and stored into one they
 * are rounded (`MySqlStored`). The connection runs in strict mode
 * (TRADITIONAL) with exceptions on, so an INSERT of a string MySQL does not
 * take whole, or an UPDATE whose WHERE string has text after its number,
 * fails the request (500). PHP's own (int) cast is `PhpIntCast`.
 */
module PhpApp {
  import opened Base
  import opened Text
  import opened Numbers
  import opened Store
  import opened Engine

  const AvatarMaxSize: nat := 1 * 1024 * 1024

  /** PHP's truthiness of a string: "" and "0" are false. */
  predicate Falsy(s: string)
    ensures Falsy(s) ==> PhpIntCast(s) == 0
    ensures |s| >= 2 ==> !Falsy(s)
  {
    assert PhpIntCast("0") == 0 by {
      assert AllDigits("0") && DigitsValue("0") == DigitValue('0');
      PhpReadsDigits("0");
    }
    assert PhpIntCast("") == 0 by {
      PhpNoDigits();
    }
    s == "" || s == "0"
  }

  /** The truthiness of file contents: no bytes, or the single byte "0", are false. */
  predicate FalsyBytes(data: seq<int>) {
    data == [] || data == ['0' as int]
  }

  /**
   * random_string($length): `while ($length--)` tests before decrementing,
   * so exactly $length characters, each the first of a shuffled seed.
   */
  method RandomString(length: nat, draws: seq<nat>) returns (str: string)
    requires |draws| >= length && ValidDraws(DigitsLetters, draws)
    ensures str == Drawn(DigitsLetters, length, draws)
    ensures |str| == length
  {
    str := "";
    var l := length;
    while l != 0
      invariant 0 <= l && |str| + l == length
      invariant forall k :: 0 <= k < |str| ==> str[k] == DigitsLetters[draws[k]]
    {
      l := l - 1;
      str := str + [DigitsLetters[draws[|str|]]];
    }
  }

  /** db_get_user for the cookie's value: the user whose id the cookie equals, as MySQL compares. */
  function CookieUser(users: seq<User>, cookie: string): (r: Option<User>)
    ensures r.Some? ==> r.value in users && MySqlEquals(cookie) == Some(r.value.id)
    ensures r.None? ==> forall u :: u in users ==> MySqlEquals(cookie) != Some(u.id)
  {
    match MySqlEquals(cookie)
    case None => None
    case Some(id) => UserById(users, id)
  }

  /** The id a cookie naming a user is stored as, in an INSERT, is that user's id. */
  lemma CookieStoresUser(users: seq<User>, cookie: string)
    requires CookieUser(users, cookie).Some?
    ensures MySqlStored(cookie) == CookieUser(users, cookie).value.id
  {
    MySqlStoresEqual(cookie, CookieUser(users, cookie).value.id);
  }

  /**
   * POST /message: no user, a channel_id that casts to 0, or a falsy message
   * (including "0") is 403; the cookie itself is inserted as the user id, so
   * a cookie that names a user but that strict mode does not store whole
   * ("1abc") fails the INSERT (500); otherwise one message by that user is
   * appended, 204.
   */
  method PostMessage(db: Db, cookie: string, message: string, channelId: string) returns (r: Response<()>)
    requires db.Valid()
    modifies db
    ensures db.Valid()
    ensures db.users == old(db.users) && db.haveread == old(db.haveread) && db.channels == old(db.channels)
    ensures db.images == old(db.images) && db.nextUserId == old(db.nextUserId)
    ensures db.nextChannelId == old(db.nextChannelId) && db.nextImageId == old(db.nextImageId)
    ensures r != NoContent ==> db.messages == old(db.messages) && db.nextMessageId == old(db.nextMessageId)
    ensures CookieUser(old(db.users), cookie).None? || PhpIntCast(channelId) == 0 || Falsy(message) ==>
      r == Error(403)
    ensures CookieUser(old(db.users), cookie).Some? && PhpIntCast(channelId) != 0 && !Falsy(message) && !MySqlStrictStores(cookie) ==>
      r == Error(500)
    ensures CookieUser(old(db.users), cookie).Some? && PhpIntCast(channelId) != 0 && !Falsy(message) && MySqlStrictStores(cookie) ==>
      var author := CookieUser(old(db.users), cookie).value.id;
      && r == NoContent
      && db.messages == old(db.messages) + [Message(old(db.nextMessageId), PhpIntCast(channelId), author, message)]
      && db.nextMessageId == old(db.nextMessageId) + 1
  {
    var user := CookieUser(db.users, cookie);
    var ch := PhpIntCast(channelId);
    if user.None? || ch == 0 || Falsy(message) {
      return Error(403);
    }
    if !MySqlStrictStores(cookie) {
      return Error(500);
    }
    CookieStoresUser(db.users, cookie);
    var _ := db.AddMessage(ch, MySqlStored(cookie), message);
    r := NoContent;
  }

  /** The foreach that folds max over the fetched ids, starting from 0. */
  method MaxMessageId(rows: seq<Message>) returns (m: int)
    ensures rows == [] ==> m == 0
    ensures rows != [] ==> m == Max(0, MaxId(rows))
  {
    m := 0;
    for i := 0 to |rows|
      invariant i == 0 ==> m == 0
      invariant i > 0 ==> m == Max(0, MaxId(rows[..i]))
    {
      if i > 0 {
        MaxIdSnoc(rows[..i + 1]);
        assert rows[..i + 1][..i] == rows[..i];
      }
      m := Max(m, rows[i].id);
    }
    assert rows[..|rows|] == rows;
  }

  /** The newest id of a longer list is the larger of the old maximum and the new id. */
  lemma {:induction false} MaxIdSnoc(rows: seq<Message>)
    requires |rows| >= 2
    ensures MaxId(rows) == Max(MaxId(rows[..|rows| - 1]), rows[|rows| - 1].id)
    decreases |rows|
  {
    var p := rows[..|rows| - 1];
    if |rows| > 2 {
      MaxIdSnoc(rows[1..]);
      assert rows[1..][..|rows| - 2] == p[1..];
      assert rows[1..][|rows| - 2] == rows[|rows| - 1];
    } else {
      assert p == [rows[0]];
    }
  }

  /**
   * GET /message: a falsy cookie is 403; otherwise the newest 100 messages
   * after last_message_id, oldest first, and the cursor set to the newest
   * id, or 0 when there was none. An absent last_message_id is bound as
   * NULL, and `id > NULL` holds for no row, so nothing is fetched. The
   * cookie and channel_id are inserted into haveread as given, so either
   * one that strict mode does not store whole fails the request (500) with
   * the cursors unchanged.
   */
  method GetMessage(db: Db, cookie: string, channelId: string, lastMessageId: Option<string>)
    returns (r: Response<seq<JsonMessage>>)
    requires db.Valid()
    modifies db
    ensures db.Valid()
    ensures db.users == old(db.users) && db.messages == old(db.messages) && db.channels == old(db.channels)
    ensures db.images == old(db.images) && db.nextUserId == old(db.nextUserId) && db.nextChannelId == old(db.nextChannelId)
    ensures db.nextMessageId == old(db.nextMessageId) && db.nextImageId == old(db.nextImageId)
    ensures Falsy(cookie) ==> r == Error(403) && db.haveread == old(db.haveread)
    ensures !Falsy(cookie) && !(MySqlStrictStores(cookie) && MySqlStrictStores(channelId)) ==>
      r == Error(500) && db.haveread == old(db.haveread)
    ensures !Falsy(cookie) && MySqlStrictStores(cookie) && MySqlStrictStores(channelId) ==>
      var f := if lastMessageId.Some? then FetchWhere(db.messages, MySqlEquals(channelId), MySqlAbove(lastMessageId.value)) else [];
      && r == Ok(Render(db.users, f))
      && db.haveread == old(db.haveread)[(MySqlStored(cookie), MySqlStored(channelId)) := CursorAfter(f)]
  {
    if Falsy(cookie) {
      return Error(403);
    }
    var ch := MySqlEquals(channelId);
    var rows := [];
    if ch.Some? && lastMessageId.Some? {
      var last := MySqlAbove(lastMessageId.value);
      rows := NewestDesc(db.messages, ch.value, last, FetchLimit);
      ghost var f := Fetch(db.messages, ch.value, last);
      ReverseReverse(f);
      CursorOfNewestDesc(db.messages, ch.value, last, db.nextMessageId, db.haveread);
    }
    var res := RenderNewestFirst(db.users, rows);
    var maxMessageId := MaxMessageId(rows);
    if !MySqlStrictStores(cookie) || !MySqlStrictStores(channelId) {
      return Error(500);
    }
    db.UpsertHaveRead(MySqlStored(cookie), MySqlStored(channelId), maxMessageId);
    r := Ok(res);
  }

  /** GET /fetch: a falsy cookie is 403; otherwise one unread count per channel, in table order. */
  method FetchUnread(db: Db, cookie: string) returns (r: Response<seq<UnreadInfo>>)
    requires db.Valid()
    ensures Falsy(cookie) ==> r == Error(403)
    ensures !Falsy(cookie) ==> r.Ok? && |r.body| == |db.channels|
    ensures !Falsy(cookie) ==> forall i :: 0 <= i < |db.channels| ==>
      var ch := db.channels[i].id;
      r.body[i] == UnreadInfo(ch, Unread(db.messages, CursorWhere(db.haveread, MySqlEquals(cookie), ch), ch))
  {
    if Falsy(cookie) {
      return Error(403);
    }
    var user := MySqlEquals(cookie);
    var res;
    if user.Some? {
      res := UnreadCounts(db.messages, db.haveread, user.value, ChannelIds(db.channels));
    } else {
      // a cookie equal to no integer finds no haveread row: no cursor anywhere
      res := UnreadCounts(db.messages, map[], 0, ChannelIds(db.channels));
    }
    r := Ok(res);
  }

  /** login_required: a truthy cookie naming an existing user. */
  predicate LoggedIn(users: seq<User>, cookie: string) {
    !Falsy(cookie) && CookieUser(users, cookie).Some?
  }

  /** A user is logged in exactly when the cookie is truthy and MySQL reads it as some user's id. */
  lemma LoggedInExactly(users: seq<User>, cookie: string)
    ensures LoggedIn(users, cookie) <==> !Falsy(cookie) && exists u :: u in users && MySqlEquals(cookie) == Some(u.id)
  {
    var c := CookieUser(users, cookie);
    if c.Some? {
      assert c.value in users && MySqlEquals(cookie) == Some(c.value.id);
    }
  }

  /** The page the history handler reads: '1' when absent, is_numeric, then (int). */
  function PageParam(page: Option<string>): (p: Option<int>)
    ensures page.None? ==> p == Some(1)
    ensures page.Some? ==> (p.Some? <==> PhpIsNumeric(page.value))
    ensures page.Some? && AllDigits(page.value) ==> p == Some(DigitsValue(page.value))
  {
    var s := if page.None? then "1" else page.value;
    assert AllDigits("1") && DigitsValue("1") == 1;
    PhpReadsDigits(s);
    if PhpIsNumeric(s) then Some(PhpIntCast(s)) else None
  }

  /**
   * GET /history/{channel_id}: without a logged-in user, redirect; a
   * non-numeric page (the empty string included) is 400; a page below 1 or
   * above maxPage = ceil(cnt / 20), raised to 1, is 400; otherwise the page's
   * messages oldest first.
   */
  method GetHistory(db: Db, cookie: string, channelId: string, page: Option<string>) returns (r: Response<HistoryView>)
    requires db.Valid()
    ensures !LoggedIn(db.users, cookie) ==> r == Redirect("/login", None)
    ensures LoggedIn(db.users, cookie) && !PageInRange(PageParam(page), CountWhere(db.messages, MySqlEquals(channelId))) ==>
      r == Error(400)
    ensures LoggedIn(db.users, cookie) && PageInRange(PageParam(page), CountWhere(db.messages, MySqlEquals(channelId))) ==>
      var ch := MySqlEquals(channelId);
      var p := PageParam(page).value;
      r == Ok(HistoryView(Render(db.users, HistoryPageWhere(db.messages, ch, p)), p, MaxPage(CountWhere(db.messages, ch))))
  {
    if !LoggedIn(db.users, cookie) {
      return Redirect("/login", None);
    }
    var p := PageParam(page);
    if p.None? {
      return Error(400);
    }
    var ch := MySqlEquals(channelId);
    var cnt := CountWhere(db.messages, ch);
    var maxPage := CeilMaxPage(cnt);
    if p.value < 1 || maxPage < p.value {
      assert !PageInRange(p, cnt);
      return Error(400);
    }
    assert PageInRange(p, cnt);
    if ch.None? {
      return Ok(HistoryView(Render(db.users, []), p.value, maxPage));
    }
    r := HistoryResponse(db.users, db.messages, ch.value, p.value, maxPage);
  }

  /** `ceil($cnt / $pageSize)`, raised to 1 when it is 0. */
  method CeilMaxPage(cnt: nat) returns (maxPage: nat)
    ensures maxPage == MaxPage(cnt)
  {
    maxPage := PagesFor(cnt);
    if maxPage == 0 {
      maxPage := 1;
    }
  }

  /**
   * pathinfo($filename, PATHINFO_EXTENSION): what follows the last '.',
   * without the dot; nothing when there is no '.'. A dot-free `ext` that
   * the name ends in, after a '.', is exactly that.
   */
  function PathExt(name: string): (ext: string)
    ensures '.' !in ext && |ext| <= |name|
    ensures '.' in name ==> HasSuffix(name, "." + ext)
    ensures '.' !in name ==> ext == ""
  {
    match LastIndexOf(name, '.')
    case None => ""
    case Some(i) =>
      assert name[i..] == "." + name[i + 1..];
      name[i + 1..]
  }

  predicate Accepted(ext: string) {
    ext == "jpg" || ext == "jpeg" || ext == "png" || ext == "gif"
  }

  /** ext2mime: the extension without its dot. */
  function Ext2Mime(ext: string): (mime: string)
    ensures mime != "" <==> Accepted(ext)
  {
    if ext == "jpg" || ext == "jpeg" then "image/jpeg"
    else if ext == "png" then "image/png"
    else if ext == "gif" then "image/gif"
    else ""
  }

  predicate AvatarAcceptable(up: Upload) {
    Accepted(PathExt(up.filename)) && |up.data| <= AvatarMaxSize
  }

  /** `if ($displayName)`: present and not "" or "0". */
  function Truthy(displayName: Option<string>): (r: Option<string>)
    ensures r.Some? <==> displayName.Some? && !Falsy(displayName.value)
    ensures r.Some? ==> r == displayName
  {
    if displayName.Some? && !Falsy(displayName.value) then displayName else None
  }

  /**
   * POST /profile: without a logged-in user, redirect; an uploaded file whose
   * extension is not one of the four image types, or larger than 1 MiB, is
   * 400; otherwise a truthy file is stored as sha1(data) . '.' . ext and
   * becomes the icon, a truthy display name replaces the old one. The
   * UPDATEs compare the id with the cookie as given: one with text after its
   * number ("1abc") fails the first UPDATE in strict mode (500), after the
   * image row is already inserted.
   */
  method PostProfile(db: Db, cookie: string, avatar: Option<Upload>, displayName: Option<string>, sha1: seq<int> -> string)
    returns (r: Response<()>)
    requires db.Valid()
    modifies db
    ensures db.Valid()
    ensures db.messages == old(db.messages) && db.haveread == old(db.haveread) && db.channels == old(db.channels)
    ensures db.nextUserId == old(db.nextUserId) && db.nextChannelId == old(db.nextChannelId)
    ensures db.nextMessageId == old(db.nextMessageId) && db.nextImageId == old(db.nextImageId) + |db.images| - |old(db.images)|
    ensures Falsy(cookie) || CookieUser(old(db.users), cookie).None? ==>
      r == Redirect("/login", None) && db.users == old(db.users) && db.images == old(db.images)
    ensures !Falsy(cookie) && CookieUser(old(db.users), cookie).Some? && avatar.Some? && !AvatarAcceptable(avatar.value) ==>
      r == Error(400) && db.users == old(db.users) && db.images == old(db.images)
    ensures !Falsy(cookie) && CookieUser(old(db.users), cookie).Some? && (avatar.Some? ==> AvatarAcceptable(avatar.value)) ==>
      var stored := avatar.Some? && !FalsyBytes(avatar.value.data);
      var icon := if stored then Some(sha1(avatar.value.data) + "." + PathExt(avatar.value.filename)) else None;
      var updates := stored || Truthy(displayName).Some?;
      && db.images == old(db.images) + (if stored then [Image(old(db.nextImageId), icon.value, avatar.value.data)] else [])
      && (updates && MySqlTruncates(cookie) ==> r == Error(500) && db.users == old(db.users))
      && (!(updates && MySqlTruncates(cookie)) ==>
            && r == Redirect("/", None)
            && db.users == UpdatedProfile(old(db.users), CookieUser(old(db.users), cookie).value.id, icon, Truthy(displayName)))
  {
    if Falsy(cookie) || CookieUser(db.users, cookie).None? {
      return Redirect("/login", None);
    }
    ghost var id := CookieUser(db.users, cookie).value.id;
    var avatarName: Option<string> := None;
    var avatarData: seq<int> := [];
    if avatar.Some? {
      var ext := PathExt(avatar.value.filename);
      if !Accepted(ext) {
        return Error(400);
      }
      if AvatarMaxSize < |avatar.value.data| {
        return Error(400);
      }
      avatarData := avatar.value.data;
      avatarName := Some(sha1(avatarData) + "." + ext);
    }
    var stored := avatarName.Some? && !FalsyBytes(avatarData);
    if MySqlTruncates(cookie) && (stored || Truthy(displayName).Some?) {
      if stored {
        db.AddImage(avatarName.value, avatarData);
      }
      return Error(500);
    }
    CookieStoresUser(db.users, cookie);
    ApplyProfile(db, MySqlStored(cookie), if stored then avatarName else None,
      if stored then Some(avatarData) else None, Truthy(displayName));
    r := Redirect("/", None);
  }

  /** GET /icons/{filename}: the image with its type, or 404 without a row or a known type. */
  function GetIcon(images: seq<Image>, fileName: string): (r: Response<(string, seq<int>)>)
    ensures r.Error? <==> ImageByName(images, fileName).None? || !Accepted(PathExt(fileName))
    ensures r.Error? ==> r.code == 404
    ensures r.Ok? ==> r.body == (Ext2Mime(PathExt(fileName)), ImageByName(images, fileName).value.data)
  {
    var row := ImageByName(images, fileName);
    var mime := Ext2Mime(PathExt(fileName));
    if row.Some? && mime != "" then Ok((mime, row.value.data)) else Error(404)
  }

  /** A stored avatar name, digest . '.' . ext, is served with the type of ext. */
  lemma AvatarIsServed(digest: string, ext: string)
    requires Accepted(ext)
    ensures PathExt(digest + "." + ext) == ext
    ensures Ext2Mime(PathExt(digest + "." + ext)) != ""
  {
    var n := digest + "." + ext;
    var d := |digest|;
    assert n[d] == '.' && n[d + 1..] == ext;
    assert '.' !in ext;
  }
}
