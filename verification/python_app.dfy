/**
 * The Python server (webapp/python/app.py). The Flask session may lack a
 * user id (None); a present id of 0 is falsy like an absent one.
 */
module PythonApp {
  import opened Base
  import opened Text
  import opened Store
  import opened Engine

  const AvatarMaxSize: nat := 1 * 1024 * 1024

  /** random_string(n): n characters drawn from ascii_letters + digits. */
  function RandomString(n: nat, draws: seq<nat>): (s: string)
    requires |draws| >= n && ValidDraws(LettersDigits, draws)
    ensures |s| == n
    ensures forall i :: 0 <= i < n ==> s[i] in LettersDigits && s[i] == LettersDigits[draws[i]]
  {
    Drawn(LettersDigits, n, draws)
  }

  /** `not user_id`: no session, or an id of 0. */
  predicate NoSession(session: Option<int>) {
    session.None? || session.value == 0
  }

  /**
   * POST /message: without a session the lookup raises (500); a channel_id
   * that int() rejects raises too (500), before anything else is checked; a
   * missing user, an empty message or a channel_id of 0 is 403; otherwise
   * one message is appended and the answer is 204.
   */
  method PostMessage(db: Db, session: Option<int>, message: string, channelId: string) returns (r: Response<()>)
    requires db.Valid()
    modifies db
    ensures db.Valid()
    ensures db.images == old(db.images) && db.nextUserId == old(db.nextUserId)
    ensures db.nextChannelId == old(db.nextChannelId) && db.nextImageId == old(db.nextImageId)
    ensures db.nextMessageId == old(db.nextMessageId) + |db.messages| - |old(db.messages)|
    ensures db.users == old(db.users) && db.haveread == old(db.haveread) && db.channels == old(db.channels)
    ensures session.None? || PyInt(channelId).None? ==> r == Error(500) && db.messages == old(db.messages)
    ensures session.Some? && PyInt(channelId).Some? ==>
      var ok := UserById(old(db.users), session.value).Some? && message != "" && PyInt(channelId).value != 0;
      && (!ok ==> r == Error(403) && db.messages == old(db.messages))
      && (ok ==> r == NoContent)
      && (ok ==> db.messages == old(db.messages) + [Message(old(db.nextMessageId), PyInt(channelId).value, session.value, message)])
  {
    if session.None? {
      return Error(500);
    }
    var user := UserById(db.users, session.value);
    var channel := PyInt(channelId);
    if channel.None? {
      return Error(500);
    }
    if user.None? || message == "" || channel.value == 0 {
      return Error(403);
    }
    var _ := db.AddMessage(channel.value, session.value, message);
    r := NoContent;
  }

  /**
   * GET /message: no session is 403; a missing or non-integer channel_id or
   * last_message_id raises (500); otherwise the newest 100 messages after
   * the cursor given, oldest first, and the read cursor set to the newest
   * id, or 0 when there was none.
   */
  method GetMessage(db: Db, session: Option<int>, channelId: Option<string>, lastMessageId: Option<string>)
    returns (r: Response<seq<JsonMessage>>)
    requires db.Valid()
    modifies db
    ensures db.Valid()
    ensures db.images == old(db.images) && db.nextUserId == old(db.nextUserId) && db.nextChannelId == old(db.nextChannelId)
    ensures db.nextMessageId == old(db.nextMessageId) && db.nextImageId == old(db.nextImageId)
    ensures db.users == old(db.users) && db.messages == old(db.messages) && db.channels == old(db.channels)
    ensures NoSession(session) ==> r == Error(403) && db.haveread == old(db.haveread)
    ensures !NoSession(session) && !(IntParam(channelId).Some? && IntParam(lastMessageId).Some?) ==>
      r == Error(500) && db.haveread == old(db.haveread)
    ensures !NoSession(session) && IntParam(channelId).Some? && IntParam(lastMessageId).Some? ==>
      var ch := IntParam(channelId).value;
      var f := Fetch(db.messages, ch, IntParam(lastMessageId).value);
      && r == Ok(Render(db.users, f))
      && db.haveread == old(db.haveread)[(session.value, ch) := CursorAfter(f)]
  {
    if NoSession(session) {
      return Error(403);
    }
    var ch := IntParam(channelId);
    var last := IntParam(lastMessageId);
    if ch.None? || last.None? {
      return Error(500);
    }
    var rows := NewestDesc(db.messages, ch.value, last.value, FetchLimit);
    ghost var f := Fetch(db.messages, ch.value, last.value);
    ReverseReverse(f);
    var response := RenderNewestFirst(db.users, rows);
    CursorOfNewestDesc(db.messages, ch.value, last.value, db.nextMessageId, db.haveread);
    var maxMessageId := CursorAfter(rows);
    db.UpsertHaveRead(session.value, ch.value, maxMessageId);
    r := Ok(response);
  }

  /** int(request.args.get(name)): None when absent or not an integer. */
  function IntParam(arg: Option<string>): (r: Option<int>)
    ensures arg.None? ==> r.None?
    ensures arg.Some? && AllDigits(arg.value) ==> r == Some(DigitsValue(arg.value))
    ensures r.Some? ==> arg.Some? && DigitRun(SignOf(Trim(arg.value)).1).1 == |SignOf(Trim(arg.value)).1| > 0
  {
    if arg.None? then None else PyInt(arg.value)
  }

  /** GET /fetch: no session is 403; otherwise one unread count per channel, in table order. */
  method FetchUnread(db: Db, session: Option<int>) returns (r: Response<seq<UnreadInfo>>)
    requires db.Valid()
    ensures NoSession(session) ==> r == Error(403)
    ensures !NoSession(session) ==> r.Ok? && |r.body| == |db.channels|
    ensures !NoSession(session) ==> forall i :: 0 <= i < |db.channels| ==>
      r.body[i] == UnreadInfo(db.channels[i].id, Unread(db.messages, Cursor(db.haveread, session.value, db.channels[i].id), db.channels[i].id))
  {
    if NoSession(session) {
      return Error(403);
    }
    var res := UnreadCounts(db.messages, db.haveread, session.value, ChannelIds(db.channels));
    r := Ok(res);
  }

  /** The page get_history reads: '1' when absent or empty, then isnumeric() and int(). */
  function PageParam(page: Option<string>): (p: Option<int>)
    ensures page.None? || page.value == "" ==> p == Some(1)
    ensures page.Some? && page.value != "" ==> (p.Some? <==> AllDigits(page.value))
    ensures page.Some? && AllDigits(page.value) ==> p == Some(DigitsValue(page.value))
    ensures p.Some? ==> p.value >= 0
  {
    var s := if page.None? || page.value == "" then "1" else page.value;
    if AllDigits(s) then Some(DigitsValue(s)) else None
  }

  /**
   * GET /history/<int:channel_id>: not logged in (or the session's user is
   * gone) redirects; a non-numeric page, or one outside [1, max_page], is
   * 400; otherwise the page's messages oldest first, with max_page =
   * ceil(cnt / 20) raised to 1.
   */
  method GetHistory(db: Db, session: Option<int>, ch: int, page: Option<string>) returns (r: Response<HistoryView>)
    requires db.Valid()
    ensures session.None? || UserById(db.users, session.value).None? ==> r == Redirect("/login", None)
    ensures session.Some? && UserById(db.users, session.value).Some? && !PageInRange(PageParam(page), CountChannel(db.messages, ch)) ==>
      r == Error(400)
    ensures session.Some? && UserById(db.users, session.value).Some? && PageInRange(PageParam(page), CountChannel(db.messages, ch)) ==>
      var p := PageParam(page).value;
      r == Ok(HistoryView(Render(db.users, HistoryPage(db.messages, ch, p)), p, MaxPage(CountChannel(db.messages, ch))))
  {
    if session.None? || UserById(db.users, session.value).None? {
      return Redirect("/login", None);
    }
    var p := PageParam(page);
    if p.None? {
      return Error(400);
    }
    var cnt := CountChannel(db.messages, ch);
    var maxPage := PagesFor(cnt);
    if maxPage == 0 {
      maxPage := 1;
    }
    assert maxPage == MaxPage(cnt);
    if !(1 <= p.value <= maxPage) {
      return Error(400);
    }
    r := HistoryResponse(db.users, db.messages, ch, p.value, maxPage);
  }

  /** get_channel_list_info: the loop stops at the first channel matching the focus. */
  method ChannelListInfo(channels: seq<Channel>, focus: int) returns (description: string)
    ensures description == FirstDescription(channels, focus)
    ensures UniqueChannelIds(channels) ==> forall k :: 0 <= k < |channels| && channels[k].id == focus ==>
      description == channels[k].description
  {
    description := "";
    var i := 0;
    while i < |channels|
      invariant 0 <= i <= |channels|
      invariant FirstDescription(channels, focus) == FirstDescription(channels[i..], focus)
      invariant description == ""
    {
      assert channels[i..][1..] == channels[i + 1..];
      if channels[i].id == focus {
        description := channels[i].description;
        break;
      }
      i := i + 1;
    }
    forall k | UniqueChannelIds(channels) && 0 <= k < |channels| && channels[k].id == focus
      ensures description == channels[k].description
    {
      FirstDescriptionOf(channels, focus, k);
    }
  }

  predicate Accepted(ext: string) {
    ext == ".jpg" || ext == ".jpeg" || ext == ".png" || ext == ".gif"
  }

  /** An upload with a file name; an empty file name is ignored. */
  predicate Uploaded(avatar: Option<Upload>) {
    avatar.Some? && avatar.value.filename != ""
  }

  predicate AvatarAcceptable(up: Upload) {
    Accepted(SplitExt(up.filename)) && |up.data| <= AvatarMaxSize
  }

  /** `if display_name`: a display name that is present and not empty. */
  function Truthy(displayName: Option<string>): (r: Option<string>)
    ensures r.Some? <==> displayName.Some? && displayName.value != ""
    ensures r.Some? ==> r == displayName
  {
    if displayName.Some? && displayName.value != "" then displayName else None
  }

  /**
   * POST /profile: not logged in redirects; an upload whose extension is not
   * one of the four image types, or larger than 1 MiB, is 400; a non-empty
   * accepted upload is stored as sha1(data) + ext and becomes the icon (an
   * empty one is ignored); a non-empty display name replaces the old one.
   */
  method PostProfile(db: Db, session: Option<int>, avatar: Option<Upload>, displayName: Option<string>, sha1: seq<int> -> string)
    returns (r: Response<()>)
    requires db.Valid()
    modifies db
    ensures db.Valid()
    ensures db.nextUserId == old(db.nextUserId) && db.nextChannelId == old(db.nextChannelId)
    ensures db.nextMessageId == old(db.nextMessageId) && db.nextImageId == old(db.nextImageId) + |db.images| - |old(db.images)|
    ensures db.messages == old(db.messages) && db.haveread == old(db.haveread) && db.channels == old(db.channels)
    ensures session.None? || UserById(old(db.users), session.value).None? ==>
      r == Redirect("/login", None) && db.users == old(db.users) && db.images == old(db.images)
    ensures session.Some? && UserById(old(db.users), session.value).Some? && Uploaded(avatar) && !AvatarAcceptable(avatar.value) ==>
      r == Error(400) && db.users == old(db.users) && db.images == old(db.images)
    ensures session.Some? && UserById(old(db.users), session.value).Some? && (Uploaded(avatar) ==> AvatarAcceptable(avatar.value)) ==>
      var stored := Uploaded(avatar) && avatar.value.data != [];
      var icon := if stored then Some(sha1(avatar.value.data) + SplitExt(avatar.value.filename)) else None;
      && r == Redirect("/", None)
      && db.users == UpdatedProfile(old(db.users), session.value, icon, Truthy(displayName))
      && db.images == old(db.images) + (if stored then [Image(old(db.nextImageId), icon.value, avatar.value.data)] else [])
  {
    if session.None? || UserById(db.users, session.value).None? {
      return Redirect("/login", None);
    }
    var userId := session.value;
    var avatarName: Option<string> := None;
    var avatarData: seq<int> := [];
    if avatar.Some? && avatar.value.filename != "" {
      var ext := if '.' in avatar.value.filename then SplitExt(avatar.value.filename) else "";
      if !Accepted(ext) {
        return Error(400);
      }
      if AvatarMaxSize < |avatar.value.data| {
        return Error(400);
      }
      avatarName := Some(sha1(avatar.value.data) + ext);
      avatarData := avatar.value.data;
    }
    // `if avatar_name and avatar_data`: empty bytes are falsy
    var stored := avatarName.Some? && avatarData != [];
    ApplyProfile(db, userId, if stored then avatarName else None, if stored then Some(avatarData) else None, Truthy(displayName));
    r := Redirect("/", None);
  }

  /** GET /icons/<file_name>: the image with its type, or 404 without a row or a known type. */
  function GetIcon(images: seq<Image>, fileName: string): (r: Response<(string, seq<int>)>)
    ensures r.Error? <==> ImageByName(images, fileName).None? || MimeOfExt(SplitExt(fileName)) == ""
    ensures r.Error? ==> r.code == 404
    ensures r.Ok? ==> r.body == (MimeOfExt(SplitExt(fileName)), ImageByName(images, fileName).value.data)
  {
    var row := ImageByName(images, fileName);
    var ext := if '.' in fileName then SplitExt(fileName) else "";
    var mime := MimeOfExt(ext);
    if row.Some? && mime != "" then Ok((mime, row.value.data)) else Error(404)
  }

  /** A stored avatar (a hex digest followed by its extension) is served with its type. */
  lemma AvatarIsServed(digest: string, ext: string)
    requires digest != [] && '.' !in digest
    requires Accepted(ext)
    ensures SplitExt(digest + ext) == ext
    ensures MimeOfExt(SplitExt(digest + ext)) != ""
  {
    assert !AllDots(digest) by { assert digest[0] != '.'; }
    SplitExtOfStem(digest, ext);
  }
}
