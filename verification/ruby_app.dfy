/**
 * The Ruby server (webapp/ruby/app.rb). The session may lack a user id
 * (None); unlike Python, any present id counts as a session. Query and form
 * values are read with String#to_i (`RubyToI`).
 */
module RubyApp {
  import opened Base
  import opened Text
  import opened Store
  import opened Engine

  const AvatarMaxSize: nat := 1 * 1024 * 1024

  /**
   * random_string(n): the argument is ignored; 20 characters are sampled
   * from letters and digits.
   */
  function RandomString(n: nat, draws: seq<nat>): (s: string)
    requires |draws| >= 20 && ValidDraws(LettersDigits, draws)
    ensures |s| == 20
    ensures forall i :: 0 <= i < 20 ==> s[i] == LettersDigits[draws[i]]
  {
    Drawn(LettersDigits, 20, draws)
  }

  // ---------------------------------------------------------------------------
  // get_users
  // ---------------------------------------------------------------------------

  /** The author id of every row, in row order. */
  function Authors(rows: seq<Message>): (r: seq<int>)
    ensures |r| == |rows|
    ensures forall i :: 0 <= i < |rows| ==> r[i] == rows[i].user
  {
    seq(|rows|, i requires 0 <= i < |rows| => rows[i].user)
  }

  /** The position of the first occurrence of x in s, or |s| when there is none. */
  function FirstIndex(s: seq<int>, x: int): (k: nat)
    ensures k <= |s| && x !in s[..k]
    ensures k < |s| <==> x in s
    ensures k < |s| ==> s[k] == x
  {
    if s == [] then 0
    else if s[0] == x then 0
    else
      var k := FirstIndex(s[1..], x);
      assert s[..k + 1] == [s[0]] + s[1..][..k];
      assert x in s <==> x in s[1..] by { assert s == [s[0]] + s[1..]; }
      k + 1
  }

  /** The first occurrence of x in a prefix holding it is its first occurrence in the whole. */
  lemma {:induction false} FirstIndexPrefix(s: seq<int>, n: nat, x: int)
    requires n <= |s| && x in s[..n]
    ensures FirstIndex(s, x) == FirstIndex(s[..n], x) < n
  {
    var b := FirstIndex(s[..n], x);
    assert s[b] == x;
    assert s[..b] == s[..n][..b];
  }

  /** Array#uniq: the first occurrence of every element, in the order of those occurrences. */
  function Uniq(s: seq<int>): (r: seq<int>)
    ensures forall x :: x in r <==> x in s
    ensures forall i, j :: 0 <= i < j < |r| ==> r[i] != r[j]
    ensures forall i, j :: 0 <= i < j < |r| ==> FirstIndex(s, r[i]) < FirstIndex(s, r[j])
    ensures |r| <= |s|
  {
    if s == [] then []
    else
      var n := |s| - 1;
      var u := Uniq(s[..n]);
      assert forall x :: x in s <==> x in s[..n] || x == s[n];
      UniqOrderSnoc(s, u);
      if s[n] in u then u
      else
        assert FirstIndex(s, s[n]) == n by {
          assert s[n] !in s[..n];
          assert s[..n + 1][..n] == s[..n];
        }
        u + [s[n]]
  }

  /** One more element keeps the order of first occurrences, all of them before the new last position. */
  lemma {:induction false} UniqOrderSnoc(s: seq<int>, u: seq<int>)
    requires s != []
    requires forall i :: 0 <= i < |u| ==> u[i] in s[..|s| - 1]
    requires forall i, j :: 0 <= i < j < |u| ==> FirstIndex(s[..|s| - 1], u[i]) < FirstIndex(s[..|s| - 1], u[j])
    ensures forall i, j :: 0 <= i < j < |u| ==> FirstIndex(s, u[i]) < FirstIndex(s, u[j])
    ensures forall i :: 0 <= i < |u| ==> FirstIndex(s, u[i]) < |s| - 1
  {
    var n := |s| - 1;
    forall i | 0 <= i < |u|
      ensures FirstIndex(s, u[i]) < n
    {
      FirstIndexPrefix(s, n, u[i]);
    }
    forall i, j | 0 <= i < j < |u|
      ensures FirstIndex(s, u[i]) < FirstIndex(s, u[j])
    {
      FirstIndexPrefix(s, n, u[i]);
      FirstIndexPrefix(s, n, u[j]);
    }
  }

  /** The dictionary get_users builds: every listed id with a user row, mapped to its public fields. */
  function AuthorDict(users: seq<User>, ids: seq<int>): map<int, UserView> {
    map k | k in ids && UserById(users, k).Some? :: ViewOf(UserById(users, k).value)
  }

  /** The dictionary holds only listed ids, and every listed id that has a user row. */
  lemma AuthorDictKeys(users: seq<User>, ids: seq<int>)
    ensures forall k :: k in AuthorDict(users, ids) ==> k in ids
    ensures forall u :: u in users && u.id in ids ==> u.id in AuthorDict(users, ids)
  {
  }

  /** Looking an id up in a table with one more row: an earlier row wins. */
  lemma {:induction false} UserByIdSnoc(us: seq<User>, u: User, k: int)
    ensures UserById(us + [u], k) ==
      if UserById(us, k).Some? then UserById(us, k) else if u.id == k then Some(u) else None
  {
    if us != [] {
      assert (us + [u])[1..] == us[1..] + [u];
      UserByIdSnoc(us[1..], u, k);
    }
  }

  /**
   * get_users(ids): `WHERE id IN (ids)` with an empty list is an SQL syntax
   * error (None); otherwise the loop over the selected rows fills the
   * dictionary.
   */
  method GetUsers(users: seq<User>, ids: seq<int>) returns (dict: Option<map<int, UserView>>)
    requires forall i, j :: 0 <= i < j < |users| ==> users[i].id < users[j].id
    ensures ids == [] <==> dict.None?
    ensures dict.Some? ==> dict.value == AuthorDict(users, ids)
  {
    if ids == [] {
      return None;
    }
    var d: map<int, UserView> := map[];
    assert AuthorDict(users[..0], ids) == d;
    for i := 0 to |users|
      invariant d == AuthorDict(users[..i], ids)
    {
      AuthorDictStep(users, ids, i);
      if users[i].id in ids {
        d := d[users[i].id := ViewOf(users[i])];
      }
    }
    assert users[..|users|] == users;
    dict := Some(d);
  }

  /** One more row adds its own entry when its id is listed, and changes nothing else. */
  lemma AuthorDictStep(users: seq<User>, ids: seq<int>, i: nat)
    requires forall i, j :: 0 <= i < j < |users| ==> users[i].id < users[j].id
    requires i < |users|
    ensures AuthorDict(users[..i + 1], ids) ==
      if users[i].id in ids then AuthorDict(users[..i], ids)[users[i].id := ViewOf(users[i])] else AuthorDict(users[..i], ids)
  {
    FirstRowWins(users, i);
  }

  /** Adding row i to the rows before it: a lookup finds row i only for its own id, which is new. */
  lemma FirstRowWins(users: seq<User>, i: nat)
    requires forall i, j :: 0 <= i < j < |users| ==> users[i].id < users[j].id
    requires i < |users|
    ensures UserById(users[..i], users[i].id).None?
    ensures forall k :: UserById(users[..i + 1], k) == (if k == users[i].id then Some(users[i]) else UserById(users[..i], k))
  {
    var u := users[i];
    assert users[..i + 1] == users[..i] + [u];
    forall k
      ensures UserById(users[..i + 1], k) == if k == u.id then Some(u) else UserById(users[..i], k)
    {
      UserByIdSnoc(users[..i], u, k);
    }
  }

  /** A message row rendered with the dictionary: `users[row['user_id']]`, nil when missing. */
  function DictJsonify(dict: map<int, UserView>, m: Message): (j: JsonMessage)
    ensures j.id == m.id && j.content == m.content
    ensures j.user.Some? <==> m.user in dict
  {
    JsonMessage(m.id, if m.user in dict then Some(dict[m.user]) else None, m.content)
  }

  /** The response loop of GET /message: rows newest first, pushed, then `reverse!`. */
  method RenderWithDict(dict: map<int, UserView>, rowsDesc: seq<Message>) returns (response: seq<JsonMessage>)
    ensures |response| == |rowsDesc|
    ensures forall i :: 0 <= i < |rowsDesc| ==> response[i] == DictJsonify(dict, rowsDesc[|rowsDesc| - 1 - i])
  {
    var acc: seq<JsonMessage> := [];
    for i := 0 to |rowsDesc|
      invariant |acc| == i
      invariant forall k :: 0 <= k < i ==> acc[k] == DictJsonify(dict, rowsDesc[k])
    {
      acc := acc + [DictJsonify(dict, rowsDesc[i])];
    }
    response := Reverse(acc);
  }

  /** Rendering through the author dictionary of the rows' own authors is rendering with the user table. */
  lemma DictRenderIsRender(users: seq<User>, rows: seq<Message>, m: Message)
    requires m in rows
    ensures DictJsonify(AuthorDict(users, Uniq(Authors(rows))), m) == Jsonify(users, m)
  {
    var i :| 0 <= i < |rows| && rows[i] == m;
    assert m.user in Authors(rows);
  }

  /** The reversed response rendered through the rows' author dictionary is the rendered rows, oldest first. */
  lemma RenderThroughDict(users: seq<User>, rowsDesc: seq<Message>, response: seq<JsonMessage>)
    requires |response| == |rowsDesc|
    requires forall i :: 0 <= i < |rowsDesc| ==>
      response[i] == DictJsonify(AuthorDict(users, Uniq(Authors(rowsDesc))), rowsDesc[|rowsDesc| - 1 - i])
    ensures response == Render(users, Reverse(rowsDesc))
  {
    forall i | 0 <= i < |rowsDesc|
      ensures response[i] == Jsonify(users, Reverse(rowsDesc)[i])
    {
      DictRenderIsRender(users, rowsDesc, rowsDesc[|rowsDesc| - 1 - i]);
    }
  }

  // ---------------------------------------------------------------------------
  // Handlers
  // ---------------------------------------------------------------------------

  /**
   * POST /message: a missing session, message or channel_id, or a session
   * whose user row is gone, is 403; otherwise the message is appended with
   * channel_id.to_i, even when the message is empty or the channel 0.
   */
  method PostMessage(db: Db, session: Option<int>, message: Option<string>, channelId: Option<string>)
    returns (r: Response<()>)
    requires db.Valid()
    modifies db
    ensures db.Valid()
    ensures db.images == old(db.images) && db.nextUserId == old(db.nextUserId)
    ensures db.nextChannelId == old(db.nextChannelId) && db.nextImageId == old(db.nextImageId)
    ensures db.nextMessageId == old(db.nextMessageId) + |db.messages| - |old(db.messages)|
    ensures db.users == old(db.users) && db.haveread == old(db.haveread) && db.channels == old(db.channels)
    ensures session.None? || message.None? || channelId.None? || UserById(old(db.users), session.value).None? ==>
      r == Error(403) && db.messages == old(db.messages)
    ensures session.Some? && message.Some? && channelId.Some? && UserById(old(db.users), session.value).Some? ==>
      && r == NoContent
      && db.messages == old(db.messages) + [Message(old(db.nextMessageId), RubyToI(channelId.value), session.value, message.value)]
  {
    if session.None? || message.None? || channelId.None? || UserById(db.users, session.value).None? {
      return Error(403);
    }
    var _ := db.AddMessage(RubyToI(channelId.value), session.value, message.value);
    r := NoContent;
  }

  /**
   * GET /message: without a session, 403. The author dictionary is built
   * before anything else, so an empty fetch fails in SQL (500) and leaves
   * the cursor alone; otherwise the fetched rows oldest first, and the
   * cursor set to their largest id.
   */
  method GetMessage(db: Db, session: Option<int>, channelId: string, lastMessageId: string)
    returns (r: Response<seq<JsonMessage>>)
    requires db.Valid()
    modifies db
    ensures db.Valid()
    ensures db.images == old(db.images) && db.nextUserId == old(db.nextUserId) && db.nextChannelId == old(db.nextChannelId)
    ensures db.nextMessageId == old(db.nextMessageId) && db.nextImageId == old(db.nextImageId)
    ensures db.users == old(db.users) && db.messages == old(db.messages) && db.channels == old(db.channels)
    ensures session.None? ==> r == Error(403) && db.haveread == old(db.haveread)
    ensures session.Some? && Fetch(db.messages, RubyToI(channelId), RubyToI(lastMessageId)) == [] ==>
      r == Error(500) && db.haveread == old(db.haveread)
    ensures session.Some? && Fetch(db.messages, RubyToI(channelId), RubyToI(lastMessageId)) != [] ==>
      var ch := RubyToI(channelId);
      var f := Fetch(db.messages, ch, RubyToI(lastMessageId));
      && r == Ok(Render(db.users, f))
      && db.haveread == old(db.haveread)[(session.value, ch) := MaxId(f)]
  {
    if session.None? {
      return Error(403);
    }
    var ch := RubyToI(channelId);
    var last := RubyToI(lastMessageId);
    var rows := NewestDesc(db.messages, ch, last, FetchLimit);
    ghost var f := Fetch(db.messages, ch, last);
    assert rows == Reverse(f);
    var ids := Uniq(Authors(rows));
    assert rows != [] ==> rows[0].user in ids;
    var users := GetUsers(db.users, ids);
    if users.None? {
      return Error(500);
    }
    var response := RenderWithDict(users.value, rows);
    RenderThroughDict(db.users, rows, response);
    ReverseReverse(f);
    CursorOfNewestDesc(db.messages, ch, last, db.nextMessageId, db.haveread);
    var maxMessageId := MaxId(rows);
    MaxIdReverse(f);
    db.UpsertHaveRead(session.value, ch, maxMessageId);
    r := Ok(response);
  }

  /** GET /fetch: without a session, 403; otherwise one unread count per channel, in table order. */
  method FetchUnread(db: Db, session: Option<int>) returns (r: Response<seq<UnreadInfo>>)
    requires db.Valid()
    ensures session.None? ==> r == Error(403)
    ensures session.Some? ==> r.Ok? && |r.body| == |db.channels|
    ensures session.Some? ==> forall i :: 0 <= i < |db.channels| ==>
      var ch := db.channels[i].id;
      r.body[i] == UnreadInfo(ch, Unread(db.messages, Cursor(db.haveread, session.value, ch), ch))
  {
    if session.None? {
      return Error(403);
    }
    var res := UnreadCounts(db.messages, db.haveread, session.value, ChannelIds(db.channels));
    r := Ok(res);
  }

  /** The page check as written: `\A\d+\Z` and not the string '0', then String#to_i. */
  function PageParam(page: Option<string>): (p: Option<int>)
    ensures p.Some? ==> p.value >= 0
  {
    var s := if page.None? then "1" else page.value;
    if !RubyAllDigits(s) || s == "0" then None
    else if AllDigits(s) then Some(DigitsValue(s))
    else Some(DigitsValue(s[..|s| - 1]))
  }

  /** The page check as evidently intended: a page number is at least 1. */
  function IntendedPageParam(page: Option<string>): (p: Option<int>)
    ensures p.Some? ==> p.value >= 1
    ensures p.Some? ==> PageParam(page) == p
  {
    var p := PageParam(page);
    if p.Some? && p.value >= 1 then p else None
  }

  /** "00" passes the page check as written and asks for page 0. */
  lemma DoubleZeroPage()
    ensures PageParam(Some("00")) == Some(0)
    ensures IntendedPageParam(Some("00")) == None
  {
    assert AllDigits("00");
    assert DigitsValue("00") == 0;
  }

  /**
   * GET /history/:channel_id: without a user, redirect; a page that fails
   * the page check is 400; page 0 ("00") makes the OFFSET negative, an SQL error
   * (500); a page above max_page is 400; a channel without a row makes the
   * description lookup fail (500); otherwise the page oldest first.
   */
  method GetHistory(db: Db, session: Option<int>, channelId: string, page: Option<string>)
    returns (r: Response<HistoryView>)
    requires db.Valid()
    ensures session.None? || UserById(db.users, session.value).None? ==> r == Redirect("/login", None)
    ensures session.Some? && UserById(db.users, session.value).Some? ==> HistoryOutcome(db, channelId, page, r)
  {
    if session.None? || UserById(db.users, session.value).None? {
      return Redirect("/login", None);
    }
    var p := PageParam(page);
    if p.None? {
      return Error(400);
    }
    var ch := RubyToI(channelId);
    if p.value == 0 {
      return Error(500);
    }
    var rows := PageDesc(db.messages, ch, PageSize, (p.value - 1) * PageSize);
    var messages := RenderNewestFirst(db.users, rows);
    assert messages == Render(db.users, HistoryPage(db.messages, ch, p.value));
    var cnt := CountChannel(db.messages, ch);
    var maxPage := if cnt == 0 then 1 else PagesFor(cnt);
    assert maxPage == MaxPage(cnt);
    if p.value > maxPage {
      return Error(400);
    }
    if !ChannelExists(db.channels, ch) {
      return Error(500);
    }
    r := Ok(HistoryView(messages, p.value, maxPage));
  }

  predicate ChannelExists(channels: seq<Channel>, ch: int) {
    exists i :: 0 <= i < |channels| && channels[i].id == ch
  }

  /** What GET /history answers a logged-in user. */
  predicate HistoryOutcome(db: Db, channelId: string, page: Option<string>, r: Response<HistoryView>)
    reads db
    ensures HistoryOutcome(db, channelId, page, r) && r.Ok? ==>
      && 1 <= r.body.page <= r.body.maxPage
      && ChannelExists(db.channels, RubyToI(channelId))
      && |r.body.messages| <= PageSize
  {
    var ch := RubyToI(channelId);
    var p := PageParam(page);
    var cnt := CountChannel(db.messages, ch);
    if p.None? then r == Error(400)
    else if p.value == 0 then r == Error(500)
    else if p.value > MaxPage(cnt) then r == Error(400)
    else if !ChannelExists(db.channels, ch) then r == Error(500)
    else r == Ok(HistoryView(Render(db.users, HistoryPage(db.messages, ch, p.value)), p.value, MaxPage(cnt)))
  }

  // ---------------------------------------------------------------------------
  // POST /profile
  // ---------------------------------------------------------------------------

  /** File.extname, applied only when the name contains a '.'. */
  predicate AvatarAcceptable(up: Upload) {
    SplitExt(up.filename) in {".jpg", ".jpeg", ".png", ".gif"} && |up.data| <= AvatarMaxSize
  }

  /**
   * The display-name step as written, `!nil? || !empty?`: a missing name
   * calls `empty?` on nil (500), any present name is written, "" included.
   */
  function DisplayNameUpdate(displayName: Option<string>): (r: Response<Option<string>>)
    ensures r.Error? <==> displayName.None?
    ensures r.Ok? ==> r.body == displayName
  {
    if displayName.None? then Error(500) else Ok(displayName)
  }

  /** The step as evidently intended: write a present, non-empty name, else keep the old one. */
  function IntendedDisplayNameUpdate(displayName: Option<string>): (r: Response<Option<string>>)
    ensures r.Ok?
    ensures r.body.Some? <==> displayName.Some? && displayName.value != ""
    ensures r.body.Some? ==> r.body == displayName
  {
    Ok(if displayName.Some? then NonEmpty(displayName.value) else None)
  }

  /** The two differ exactly on a missing or an empty name; elsewhere they agree. */
  lemma DisplayNameCounterexamples()
    ensures DisplayNameUpdate(None) == Error(500) && IntendedDisplayNameUpdate(None) == Ok(None)
    ensures DisplayNameUpdate(Some("")) == Ok(Some("")) && IntendedDisplayNameUpdate(Some("")) == Ok(None)
    ensures forall d :: d != "" ==> DisplayNameUpdate(Some(d)) == IntendedDisplayNameUpdate(Some(d))
  {
  }

  /**
   * POST /profile: without a user, redirect; an avatar with a non-empty file
   * name whose extension is not an image type, or larger than 1 MiB, is 400;
   * otherwise the icon becomes sha1(data) + ext (no image row is written) and
   * the display name step runs after it.
   */
  method PostProfile(db: Db, session: Option<int>, avatar: Option<Upload>, displayName: Option<string>, sha1: seq<int> -> string)
    returns (r: Response<()>)
    requires db.Valid()
    modifies db
    ensures db.Valid()
    ensures db.nextUserId == old(db.nextUserId) && db.nextChannelId == old(db.nextChannelId)
    ensures db.nextMessageId == old(db.nextMessageId) && db.nextImageId == old(db.nextImageId)
    ensures db.messages == old(db.messages) && db.haveread == old(db.haveread)
    ensures db.channels == old(db.channels) && db.images == old(db.images)
    ensures session.None? || UserById(old(db.users), session.value).None? ==>
      r == Redirect("/login", None) && db.users == old(db.users)
    ensures session.Some? && UserById(old(db.users), session.value).Some? && Uploaded(avatar) && !AvatarAcceptable(avatar.value) ==>
      r == Error(400) && db.users == old(db.users)
    ensures session.Some? && UserById(old(db.users), session.value).Some? && (Uploaded(avatar) ==> AvatarAcceptable(avatar.value)) ==>
      var icon := if Uploaded(avatar) then Some(sha1(avatar.value.data) + SplitExt(avatar.value.filename)) else None;
      var step := DisplayNameUpdate(displayName);
      && r == (if step.Error? then Error(500) else Redirect("/", None))
      && db.users == UpdatedProfile(old(db.users), session.value, icon, if step.Ok? then step.body else None)
  {
    if session.None? || UserById(db.users, session.value).None? {
      return Redirect("/login", None);
    }
    var icon: Option<string> := None;
    if Uploaded(avatar) {
      var ext := SplitExt(avatar.value.filename);
      if ext !in {".jpg", ".jpeg", ".png", ".gif"} {
        return Error(400);
      }
      if AvatarMaxSize < |avatar.value.data| {
        return Error(400);
      }
      icon := Some(sha1(avatar.value.data) + ext);
    }
    var step := DisplayNameUpdate(displayName);
    ApplyProfile(db, session.value, icon, None, if step.Ok? then step.body else None);
    if step.Error? {
      return Error(500);
    }
    r := Redirect("/", None);
  }

  /** `!filename.nil? && !filename.empty?`: an avatar part with a file name. */
  predicate Uploaded(avatar: Option<Upload>) {
    avatar.Some? && avatar.value.filename != ""
  }
}
