/**
 * The Go server (webapp/go/src/isubata/app.go), the reference
 * implementation. Sessions hold a user id, 0 meaning "not logged in".
 * Errors that echo turns into a 500 response are `Error(500)`.
 */
module GoApp {
  import opened Base
  import opened Text
  import opened Store
  import opened Engine

  const AvatarMaxBytes: nat := 1 * 1024 * 1024

  // ---------------------------------------------------------------------------
  // Users and sessions
  // ---------------------------------------------------------------------------

  /**
   * randomString(n): a buffer of n characters, the i-th chosen by the i-th
   * rand.Intn draw; n letters and digits.
   */
  method RandomString(n: nat, draws: seq<nat>) returns (s: string)
    requires |draws| >= n && ValidDraws(LettersDigits, draws)
    ensures s == Drawn(LettersDigits, n, draws)
    ensures |s| == n && forall i :: 0 <= i < n ==> s[i] in LettersDigits
  {
    var b := new char[n];
    var i := 0;
    while i < n
      invariant 0 <= i <= n
      invariant forall k :: 0 <= k < i ==> b[k] == LettersDigits[draws[k]]
    {
      b[i] := LettersDigits[draws[i]];
      i := i + 1;
    }
    s := b[..];
  }

  /** ensureLogin: the session's user, or None (the handler then redirects to /login). */
  function EnsureLogin(users: seq<User>, session: int): (u: Option<User>)
    ensures u.Some? ==> session != 0 && u.value in users && u.value.id == session
    ensures u.None? ==> session == 0 || forall v :: v in users ==> v.id != session
  {
    if session == 0 then None else UserById(users, session)
  }

  /**
   * POST /register: empty name or password is 400; a taken name is 409;
   * otherwise a user with a 20-character salt and digest sha1(salt + password)
   * is inserted, logged in, and redirected to "/".
   */
  method PostRegister(db: Db, name: string, password: string, saltDraws: seq<nat>, sha1: string -> string)
    returns (r: Response<()>)
    requires db.Valid()
    requires |saltDraws| >= 20 && ValidDraws(LettersDigits, saltDraws)
    modifies db
    ensures db.Valid()
    ensures db.images == old(db.images) && db.nextChannelId == old(db.nextChannelId)
    ensures db.nextMessageId == old(db.nextMessageId) && db.nextImageId == old(db.nextImageId)
    ensures db.nextUserId == old(db.nextUserId) + (if r.Redirect? then 1 else 0)
    ensures name == "" || password == "" ==> r == Error(400) && db.users == old(db.users)
    ensures name != "" && password != "" && UserByName(old(db.users), name).Some? ==>
      r == Error(409) && db.users == old(db.users)
    ensures name != "" && password != "" && UserByName(old(db.users), name).None? ==>
      var salt := Drawn(LettersDigits, 20, saltDraws);
      && r == Redirect("/", Some(old(db.nextUserId)))
      && db.users == old(db.users) + [User(old(db.nextUserId), name, salt, sha1(salt + password), name, "default.png")]
    ensures db.messages == old(db.messages) && db.haveread == old(db.haveread) && db.channels == old(db.channels)
  {
    if name == "" || password == "" {
      return Error(400);
    }
    var salt := RandomString(20, saltDraws);
    var id := db.AddUser(name, salt, sha1(salt + password), name);
    if id.None? {
      return Error(409);
    }
    r := Redirect("/", Some(id.value));
  }

  /**
   * POST /login: empty name or password is 400; an unknown name or a digest
   * mismatch is 403; otherwise the user is logged in and redirected to "/".
   */
  function PostLogin(users: seq<User>, name: string, password: string, sha1: string -> string): (r: Response<()>)
    ensures r.Redirect? <==>
      name != "" && password != "" && UserByName(users, name).Some? &&
      sha1(UserByName(users, name).value.salt + password) == UserByName(users, name).value.password
    ensures r.Redirect? ==> r == Redirect("/", Some(UserByName(users, name).value.id))
    ensures r.Error? ==> r.code == (if name == "" || password == "" then 400 else 403)
  {
    if name == "" || password == "" then Error(400)
    else match UserByName(users, name)
      case None => Error(403)
      case Some(u) =>
        if sha1(u.salt + password) != u.password then Error(403)
        else Redirect("/", Some(u.id))
  }

  /** Whoever registers can log in with the same name and password. */
  lemma LoginAfterRegister(users: seq<User>, id: int, name: string, salt: string, password: string, sha1: string -> string)
    requires UniqueNames(users) && UserByName(users, name).None?
    requires name != "" && password != ""
    ensures PostLogin(users + [User(id, name, salt, sha1(salt + password), name, "default.png")], name, password, sha1)
      == Redirect("/", Some(id))
  {
    var u := User(id, name, salt, sha1(salt + password), name, "default.png");
    UserByNameAppend(users, u);
  }

  lemma {:induction false} UserByNameAppend(users: seq<User>, u: User)
    requires UserByName(users, u.name).None?
    ensures UserByName(users + [u], u.name) == Some(u)
  {
    if users != [] {
      assert (users + [u])[1..] == users[1..] + [u];
      UserByNameAppend(users[1..], u);
    }
  }

  // ---------------------------------------------------------------------------
  // POST /message
  // ---------------------------------------------------------------------------

  /**
   * POST /message: not logged in redirects to /login; an empty message or a
   * channel_id that is not an integer is 403; otherwise exactly one message
   * is appended and the answer is 204.
   */
  method PostMessage(db: Db, session: int, message: string, channelId: string) returns (r: Response<()>)
    requires db.Valid()
    modifies db
    ensures db.Valid()
    ensures db.images == old(db.images) && db.nextUserId == old(db.nextUserId)
    ensures db.nextChannelId == old(db.nextChannelId) && db.nextImageId == old(db.nextImageId)
    ensures db.nextMessageId == old(db.nextMessageId) + |db.messages| - |old(db.messages)|
    ensures db.users == old(db.users) && db.haveread == old(db.haveread) && db.channels == old(db.channels)
    ensures EnsureLogin(old(db.users), session).None? ==>
      r == Redirect("/login", None) && db.messages == old(db.messages)
    ensures EnsureLogin(old(db.users), session).Some? && (message == "" || GoParseInt(channelId).None?) ==>
      r == Error(403) && db.messages == old(db.messages)
    ensures EnsureLogin(old(db.users), session).Some? && message != "" && GoParseInt(channelId).Some? ==>
      && r == NoContent
      && db.messages == old(db.messages) + [Message(old(db.nextMessageId), GoParseInt(channelId).value, session, message)]
  {
    var user := EnsureLogin(db.users, session);
    if user.None? {
      return Redirect("/login", None);
    }
    if message == "" {
      return Error(403);
    }
    var ch := GoParseInt(channelId);
    if ch.None? {
      return Error(403);
    }
    var _ := db.AddMessage(ch.value, user.value.id, message);
    r := NoContent;
  }

  // ---------------------------------------------------------------------------
  // GET /message
  // ---------------------------------------------------------------------------

  /**
   * The loop of getMessage and getHistory: rows newest first, visited from
   * the last to the first, each turned into JSON; a row whose author is not
   * in the user table makes the whole request fail.
   */
  method JsonifyOldestFirst(users: seq<User>, rowsDesc: seq<Message>) returns (r: Option<seq<JsonMessage>>)
    ensures r.None? <==> exists k :: 0 <= k < |rowsDesc| && UserById(users, rowsDesc[k].user).None?
    ensures r.Some? ==> r.value == Render(users, Reverse(rowsDesc))
  {
    var acc: seq<JsonMessage> := [];
    var i := |rowsDesc| - 1;
    while i >= 0
      invariant -1 <= i < |rowsDesc|
      invariant |acc| == |rowsDesc| - 1 - i
      invariant forall k :: 0 <= k < |acc| ==> acc[k] == Jsonify(users, rowsDesc[|rowsDesc| - 1 - k])
      invariant forall k :: i < k < |rowsDesc| ==> UserById(users, rowsDesc[k].user).Some?
    {
      if UserById(users, rowsDesc[i].user).None? {
        return None;
      }
      acc := acc + [Jsonify(users, rowsDesc[i])];
      i := i - 1;
    }
    r := Some(acc);
  }

  /** Every author of the rows is a known user. */
  predicate AuthorsKnown(users: seq<User>, rows: seq<Message>) {
    forall k :: 0 <= k < |rows| ==> UserById(users, rows[k].user).Some?
  }

  /** Rows taken newest first have an unknown author exactly when the same rows oldest first do. */
  lemma AuthorsKnownReversed(users: seq<User>, rows: seq<Message>)
    ensures (exists k :: 0 <= k < |Reverse(rows)| && UserById(users, Reverse(rows)[k].user).None?)
      <==> !AuthorsKnown(users, rows)
    ensures Reverse(Reverse(rows)) == rows
  {
    UnknownAuthorReversed(users, rows);
    ReverseReverse(rows);
  }

  /** The unknown-author half of AuthorsKnownReversed. */
  lemma UnknownAuthorReversed(users: seq<User>, rows: seq<Message>)
    ensures (exists k :: 0 <= k < |Reverse(rows)| && UserById(users, Reverse(rows)[k].user).None?)
      <==> !AuthorsKnown(users, rows)
  {
    var d := Reverse(rows);
    if !AuthorsKnown(users, rows) {
      var k :| 0 <= k < |rows| && UserById(users, rows[k].user).None?;
      assert d[|rows| - 1 - k] == rows[k];
    }
  }

  /**
   * GET /message: no session is 403; parameters that are not integers fail
   * (500); otherwise the newest 100 messages after last_message_id come back
   * oldest first, and only when there was at least one is the read cursor
   * moved to the newest of them.
   */
  method GetMessage(db: Db, session: int, channelId: string, lastMessageId: string)
    returns (r: Response<seq<JsonMessage>>)
    requires db.Valid()
    modifies db
    ensures db.Valid()
    ensures db.images == old(db.images) && db.nextUserId == old(db.nextUserId) && db.nextChannelId == old(db.nextChannelId)
    ensures db.nextMessageId == old(db.nextMessageId) && db.nextImageId == old(db.nextImageId)
    ensures db.users == old(db.users) && db.messages == old(db.messages) && db.channels == old(db.channels)
    ensures session == 0 ==> r == Error(403) && db.haveread == old(db.haveread)
    ensures session != 0 && (GoParseInt(channelId).None? || GoParseInt(lastMessageId).None?) ==>
      r == Error(500) && db.haveread == old(db.haveread)
    ensures session != 0 && GoParseInt(channelId).Some? && GoParseInt(lastMessageId).Some? ==>
      var ch := GoParseInt(channelId).value;
      var f := Fetch(old(db.messages), ch, GoParseInt(lastMessageId).value);
      && (!AuthorsKnown(db.users, f) ==> r == Error(500) && db.haveread == old(db.haveread))
      && (AuthorsKnown(db.users, f) ==> r == Ok(Render(db.users, f)))
      && (AuthorsKnown(db.users, f) && f == [] ==> db.haveread == old(db.haveread))
      && (AuthorsKnown(db.users, f) && f != [] ==>
            db.haveread == old(db.haveread)[(session, ch) := MaxId(f)])
  {
    if session == 0 {
      return Error(403);
    }
    var ch := GoParseInt(channelId);
    var last := GoParseInt(lastMessageId);
    if ch.None? || last.None? {
      return Error(500);
    }
    var messages := NewestDesc(db.messages, ch.value, last.value, FetchLimit);
    ghost var f := Fetch(db.messages, ch.value, last.value);
    assert messages == Reverse(f);
    AuthorsKnownReversed(db.users, f);
    var response := JsonifyOldestFirst(db.users, messages);
    if response.None? {
      return Error(500);
    }
    if |messages| > 0 {
      NewestFirstIsCursor(db.messages, ch.value, last.value);
      assert messages[0] in db.messages;
      db.UpsertHaveRead(session, ch.value, messages[0].id);
    }
    r := Ok(response.value);
  }

  // ---------------------------------------------------------------------------
  // GET /fetch
  // ---------------------------------------------------------------------------

  /** queryHaveRead: the stored message id, or 0 without a haveread row. */
  function QueryHaveRead(haveread: map<(int, int), int>, user: int, ch: int): (id: int)
    ensures (user, ch) !in haveread ==> id == 0
  {
    if (user, ch) in haveread then haveread[(user, ch)] else 0
  }

  /** Go's unread rule: messages after lastID when it is positive, else the whole channel. */
  function GoUnread(ms: seq<Message>, lastId: int, ch: int): (n: nat)
    ensures n <= |ms|
    ensures n == 0 <==> forall m :: m in ms && m.channel == ch ==> lastId > 0 && m.id <= lastId
  {
    var n := if lastId > 0 then CountAfter(ms, ch, lastId) else CountChannel(ms, ch);
    assert n == Unread(ms, if lastId > 0 then Some(lastId) else None, ch);
    n
  }

  /** With non-negative cursors and positive ids, Go's rule is the shared unread rule. */
  lemma GoUnreadAgrees(ms: seq<Message>, haveread: map<(int, int), int>, user: int, ch: int)
    requires PositiveIds(ms)
    requires (user, ch) in haveread ==> haveread[(user, ch)] >= 0
    ensures GoUnread(ms, QueryHaveRead(haveread, user, ch), ch) == Unread(ms, Cursor(haveread, user, ch), ch)
  {
    FilterZeroIsInChannel(ms, ch);
  }

  /** The loop of fetchUnread: one entry per channel, in query order. */
  method UnreadCounts(ms: seq<Message>, haveread: map<(int, int), int>, user: int, chs: seq<int>)
    returns (resp: seq<UnreadInfo>)
    ensures |resp| == |chs|
    ensures forall i :: 0 <= i < |chs| ==>
      resp[i] == UnreadInfo(chs[i], GoUnread(ms, QueryHaveRead(haveread, user, chs[i]), chs[i]))
  {
    resp := [];
    for i := 0 to |chs|
      invariant |resp| == i
      invariant forall k :: 0 <= k < i ==>
        resp[k] == UnreadInfo(chs[k], GoUnread(ms, QueryHaveRead(haveread, user, chs[k]), chs[k]))
    {
      var chId := chs[i];
      var lastId := QueryHaveRead(haveread, user, chId);
      var cnt: nat;
      if lastId > 0 {
        cnt := CountAfter(ms, chId, lastId);
      } else {
        cnt := CountChannel(ms, chId);
      }
      resp := resp + [UnreadInfo(chId, cnt)];
    }
  }

  /** GET /fetch: no session is 403; otherwise the unread count of every channel. */
  method FetchUnread(db: Db, session: int) returns (r: Response<seq<UnreadInfo>>)
    requires db.Valid()
    ensures session == 0 ==> r == Error(403)
    ensures session != 0 ==> r.Ok? && |r.body| == |db.channels|
    ensures session != 0 ==> forall i :: 0 <= i < |db.channels| ==>
      r.body[i] == UnreadInfo(db.channels[i].id, Unread(db.messages, Cursor(db.haveread, session, db.channels[i].id), db.channels[i].id))
  {
    if session == 0 {
      return Error(403);
    }
    var chs := ChannelIds(db.channels);
    var resp := UnreadCounts(db.messages, db.haveread, session, chs);
    forall i | 0 <= i < |chs|
      ensures resp[i].unread == Unread(db.messages, Cursor(db.haveread, session, chs[i]), chs[i])
    {
      GoUnreadAgrees(db.messages, db.haveread, session, chs[i]);
    }
    r := Ok(resp);
  }

  // ---------------------------------------------------------------------------
  // GET /history/:channel_id
  // ---------------------------------------------------------------------------

  /** maxPage as getHistory computes it: (cnt + N - 1) / N, raised to 1 when 0. */
  function GoMaxPage(cnt: nat): (p: nat)
    ensures p == MaxPage(cnt)
  {
    var m := (cnt + PageSize - 1) / PageSize;
    if m == 0 then 1 else m
  }

  /** The page number getHistory reads: 1 when absent, else a strict integer. */
  function PageParam(pageStr: string): (p: Option<int>)
    ensures pageStr == "" ==> p == Some(1)
    ensures p.Some? ==> InInt64(p.value)
    ensures pageStr != "" && !AllDigits(SignOf(pageStr).1) ==> p.None?
    ensures AllDigits(pageStr) && DigitsValue(pageStr) <= Int64Max ==> p == Some(DigitsValue(pageStr))
  {
    if pageStr == "" then Some(1) else GoParseInt(pageStr)
  }

  /**
   * GET /history/:channel_id: a channel id that is not a positive integer is
   * 400 (checked before login); not logged in redirects; a page that is not
   * an integer, below 1 or above maxPage is 400; otherwise the page's
   * messages oldest first, with the page number and maxPage.
   */
  method GetHistory(db: Db, session: int, channelId: string, pageStr: string)
    returns (r: Response<HistoryView>)
    requires db.Valid()
    ensures GoParseInt(channelId).None? || GoParseInt(channelId).value <= 0 ==> r == Error(400)
    ensures GoParseInt(channelId).Some? && GoParseInt(channelId).value > 0 ==>
      var ch := GoParseInt(channelId).value;
      var cnt := CountChannel(db.messages, ch);
      var page := PageParam(pageStr);
      && (EnsureLogin(db.users, session).None? ==> r == Redirect("/login", None))
      && (EnsureLogin(db.users, session).Some? ==>
            if page.None? || page.value < 1 || page.value > MaxPage(cnt) then r == Error(400)
            else
              var rows := HistoryPage(db.messages, ch, page.value);
              && (!AuthorsKnown(db.users, rows) ==> r == Error(500))
              && (AuthorsKnown(db.users, rows) ==>
                    r == Ok(HistoryView(Render(db.users, rows), page.value, MaxPage(cnt)))))
  {
    var chId := GoParseInt(channelId);
    if chId.None? || chId.value <= 0 {
      return Error(400);
    }
    var user := EnsureLogin(db.users, session);
    if user.None? {
      return Redirect("/login", None);
    }
    var page := PageParam(pageStr);
    if page.None? || page.value < 1 {
      return Error(400);
    }
    var cnt := CountChannel(db.messages, chId.value);
    var maxPage := (cnt + PageSize - 1) / PageSize;
    if maxPage == 0 {
      maxPage := 1;
    }
    assert maxPage == GoMaxPage(cnt);
    if page.value > maxPage {
      return Error(400);
    }
    r := HistoryPageResponse(db, chId.value, page.value, maxPage);
  }

  /** The end of getHistory: the page's rows newest first, rendered oldest first, or 500 for an unknown author. */
  method HistoryPageResponse(db: Db, ch: int, page: nat, maxPage: int) returns (r: Response<HistoryView>)
    requires page >= 1
    ensures var rows := HistoryPage(db.messages, ch, page);
      && (!AuthorsKnown(db.users, rows) ==> r == Error(500))
      && (AuthorsKnown(db.users, rows) ==> r == Ok(HistoryView(Render(db.users, rows), page, maxPage)))
  {
    var messages := PageDesc(db.messages, ch, PageSize, (page - 1) * PageSize);
    ghost var rows := HistoryPage(db.messages, ch, page);
    AuthorsKnownReversed(db.users, rows);
    assert Reverse(rows) == messages;
    var mjson := JsonifyOldestFirst(db.users, messages);
    if mjson.None? {
      return Error(500);
    }
    r := Ok(HistoryView(mjson.value, page, maxPage));
  }

  /** xrange in the page template: the numbers a, a + 1, ..., b. */
  method TRange(a: int, b: int) returns (r: array<int>)
    requires b - a + 1 >= 0
    ensures r.Length == b - a + 1
    ensures forall i :: 0 <= i < r.Length ==> r[i] == a + i
    ensures forall x :: x in r[..] <==> a <= x <= b
  {
    r := new int[b - a + 1];
    var i := 0;
    while i <= b - a
      invariant 0 <= i <= b - a + 1
      invariant forall k :: 0 <= k < i ==> r[k] == a + k
    {
      r[i] := a + i;
      i := i + 1;
    }
    forall x | a <= x <= b
      ensures x in r[..]
    {
      assert r[..][x - a] == x;
    }
  }

  // ---------------------------------------------------------------------------
  // POST /profile and GET /icons/:file_name
  // ---------------------------------------------------------------------------

  predicate IsAvatarExt(ext: string) {
    ext == ".jpg" || ext == ".jpeg" || ext == ".png" || ext == ".gif"
  }

  /** The extension postProfile accepts: from the last '.', and one of the four image types. */
  function AvatarExt(filename: string): (ext: Option<string>)
    ensures ext.Some? ==> IsAvatarExt(ext.value) && HasSuffix(filename, ext.value)
    ensures '.' !in filename ==> ext.None?
  {
    match LastIndexOf(filename, '.')
    case None => None
    case Some(dot) =>
      var ext := filename[dot..];
      if IsAvatarExt(ext) then Some(ext) else None
  }

  /** An upload postProfile stores: an accepted extension and at most 1 MiB. */
  predicate AvatarAcceptable(up: Upload) {
    AvatarExt(up.filename).Some? && |up.data| <= AvatarMaxBytes
  }

  /**
   * POST /profile: not logged in redirects; an avatar whose extension is not
   * accepted or which is larger than 1 MiB is 400 and changes nothing;
   * otherwise a non-empty avatar is stored as sha1(data) + ext and becomes
   * the icon, a non-empty display name replaces the old one, and the answer
   * redirects to "/".
   */
  method PostProfile(db: Db, session: int, avatar: Option<Upload>, displayName: string, sha1: seq<int> -> string)
    returns (r: Response<()>)
    requires db.Valid()
    modifies db
    ensures db.Valid()
    ensures db.nextUserId == old(db.nextUserId) && db.nextChannelId == old(db.nextChannelId)
    ensures db.nextMessageId == old(db.nextMessageId) && db.nextImageId == old(db.nextImageId) + |db.images| - |old(db.images)|
    ensures db.messages == old(db.messages) && db.haveread == old(db.haveread) && db.channels == old(db.channels)
    ensures EnsureLogin(old(db.users), session).None? ==>
      r == Redirect("/login", None) && db.users == old(db.users) && db.images == old(db.images)
    ensures EnsureLogin(old(db.users), session).Some? && avatar.Some? && !AvatarAcceptable(avatar.value) ==>
      r == Error(400) && db.users == old(db.users) && db.images == old(db.images)
    ensures EnsureLogin(old(db.users), session).Some? && (avatar.None? || AvatarAcceptable(avatar.value)) ==>
      var stored := avatar.Some? && |avatar.value.data| > 0;
      var icon := if stored then Some(sha1(avatar.value.data) + AvatarExt(avatar.value.filename).value) else None;
      && r == Redirect("/", None)
      && db.users == UpdatedProfile(old(db.users), session, icon, NonEmpty(displayName))
      && db.images == old(db.images) + (if stored then [Image(old(db.nextImageId), icon.value, avatar.value.data)] else [])
  {
    var self := EnsureLogin(db.users, session);
    if self.None? {
      return Redirect("/login", None);
    }
    var avatarName := "";
    var avatarData: seq<int> := [];
    if avatar.Some? {
      var ext := AvatarExt(avatar.value.filename);
      if ext.None? {
        return Error(400);
      }
      avatarData := avatar.value.data;
      if |avatarData| > AvatarMaxBytes {
        return Error(400);
      }
      avatarName := sha1(avatarData) + ext.value;
      assert |avatarName| > 0 by { assert HasSuffix(avatarName, ext.value); }
    }
    var stored := avatarName != "" && |avatarData| > 0;
    ApplyProfile(db, self.value.id, if stored then Some(avatarName) else None,
      if stored then Some(avatarData) else None, NonEmpty(displayName));
    r := Redirect("/", None);
  }

  /** The MIME type getIcon serves for a stored image name; None means 404. */
  function IconMime(name: string): (mime: Option<string>)
    ensures mime.Some? <==>
      HasSuffix(name, ".jpg") || HasSuffix(name, ".jpeg") || HasSuffix(name, ".png") || HasSuffix(name, ".gif")
  {
    if HasSuffix(name, ".jpg") || HasSuffix(name, ".jpeg") then Some("image/jpeg")
    else if HasSuffix(name, ".png") then Some("image/png")
    else if HasSuffix(name, ".gif") then Some("image/gif")
    else None
  }

  /** GET /icons/:file_name: the image with its MIME type, or 404. */
  function GetIcon(images: seq<Image>, fileName: string): (r: Response<(string, seq<int>)>)
    ensures r.Ok? ==> IconMime(fileName).Some?
    ensures r.Ok? ==> exists i :: i in images && i.name == fileName && r.body == (IconMime(fileName).value, i.data)
    ensures r.Error? ==> r.code == 404
    ensures r.Error? <==> ImageByName(images, fileName).None? || IconMime(fileName).None?
  {
    match ImageByName(images, fileName)
    case None => Error(404)
    case Some(img) =>
      match IconMime(img.name)
      case None => Error(404)
      case Some(mime) => Ok((mime, img.data))
  }

  /** A name ending in one of the four image extensions is accepted with that extension. */
  lemma AvatarExtOfStem(stem: string, ext: string)
    requires IsAvatarExt(ext)
    ensures AvatarExt(stem + ext) == Some(ext)
  {
    assert ext[0] == '.' && '.' !in ext[1..];
    LastDot(stem, ext);
    assert (stem + ext)[|stem|..] == ext;
  }

  /** The MIME type matching an accepted avatar extension. */
  function ExtMime(ext: string): string
    requires IsAvatarExt(ext)
  {
    if ext == ".jpg" || ext == ".jpeg" then "image/jpeg" else if ext == ".png" then "image/png" else "image/gif"
  }

  /** The last `k` characters of `a + b` are the last `k` of `b`. */
  lemma SuffixOfConcat(a: string, b: string, k: nat)
    requires k <= |b|
    ensures (a + b)[|a + b| - k..] == b[|b| - k..]
  {
  }

  /** An avatar accepted by postProfile is served by getIcon with the type of its extension. */
  lemma AcceptedAvatarIsServed(digest: string, filename: string)
    requires AvatarExt(filename).Some?
    ensures IconMime(digest + AvatarExt(filename).value) == Some(ExtMime(AvatarExt(filename).value))
  {
    IconMimeOfExt(digest, AvatarExt(filename).value);
  }

  /** A stored icon name, a digest followed by an accepted extension, is served with that extension's type. */
  lemma IconMimeOfExt(digest: string, ext: string)
    requires IsAvatarExt(ext)
    ensures IconMime(digest + ext) == Some(ExtMime(ext))
  {
    var name := digest + ext;
    SuffixOfConcat(digest, ext, 4);
    if ext == ".jpeg" {
      SuffixOfConcat(digest, ext, 5);
    } else if ext != ".jpg" {
      assert name[|name| - 1] == ext[3];
    }
  }
}
