/**
 * The relational state every server implementation shares: the user,
 * channel, message and haveread tables, the SQL queries the handlers issue
 * over them, and a `Db` object whose methods are the INSERT / UPSERT
 * statements.
 *
 * The message table is kept in insertion order; ids come from an
 * AUTO_INCREMENT counter, so table order is id order (`IdsIncreasing`).
 */
module Store {
  import opened Base

  datatype User = User(id: int, name: string, salt: string, password: string,
                       displayName: string, avatarIcon: string)

  datatype Channel = Channel(id: int, name: string, description: string)

  datatype Message = Message(id: int, channel: int, user: int, content: string)

  predicate IdsIncreasing(ms: seq<Message>) {
    forall i, j :: 0 <= i < j < |ms| ==> ms[i].id < ms[j].id
  }

  // ---------------------------------------------------------------------------
  // Queries over the message table
  // ---------------------------------------------------------------------------

  /** `SELECT * FROM message WHERE channel_id = ch AND id > after`, in table order. */
  function Filter(ms: seq<Message>, ch: int, after: int): (r: seq<Message>)
    ensures forall m :: m in r <==> m in ms && m.channel == ch && m.id > after
    ensures |r| <= |ms|
  {
    if ms == [] then []
    else
      var m := ms[|ms| - 1];
      assert ms == ms[..|ms| - 1] + [m];
      Filter(ms[..|ms| - 1], ch, after) + (if m.channel == ch && m.id > after then [m] else [])
  }

  /** The rows a query selects come back in id order. */
  lemma {:induction false} FilterIncreasing(ms: seq<Message>, ch: int, after: int)
    requires IdsIncreasing(ms)
    ensures IdsIncreasing(Filter(ms, ch, after))
  {
    if ms != [] {
      var init := ms[..|ms| - 1];
      var m := ms[|ms| - 1];
      FilterIncreasing(init, ch, after);
      forall x | x in Filter(init, ch, after)
        ensures x.id < m.id
      {
        var k :| 0 <= k < |init| && init[k] == x;
      }
    }
  }

  /** `SELECT * FROM message WHERE channel_id = ch`, in table order. */
  function InChannel(ms: seq<Message>, ch: int): (r: seq<Message>)
    ensures forall m :: m in r <==> m in ms && m.channel == ch
    ensures |r| <= |ms|
  {
    if ms == [] then []
    else
      var init := InChannel(ms[..|ms| - 1], ch);
      var m := ms[|ms| - 1];
      assert ms == ms[..|ms| - 1] + [m];
      if m.channel == ch then init + [m] else init
  }

  /** `SELECT COUNT(*) FROM message WHERE channel_id = ch AND id > after`. */
  function CountAfter(ms: seq<Message>, ch: int, after: int): nat {
    |Filter(ms, ch, after)|
  }

  /** `SELECT COUNT(*) FROM message WHERE channel_id = ch`. */
  function CountChannel(ms: seq<Message>, ch: int): nat {
    |InChannel(ms, ch)|
  }

  predicate PositiveIds(ms: seq<Message>) {
    forall i :: 0 <= i < |ms| ==> ms[i].id >= 1
  }

  /** With auto-increment ids (all at least 1), "after 0" is the whole channel. */
  lemma {:induction false} FilterZeroIsInChannel(ms: seq<Message>, ch: int)
    requires PositiveIds(ms)
    ensures Filter(ms, ch, 0) == InChannel(ms, ch)
  {
    if ms != [] {
      FilterZeroIsInChannel(ms[..|ms| - 1], ch);
    }
  }

  /**
   * `... WHERE id > after AND channel_id = ch ORDER BY id DESC LIMIT limit`:
   * the `limit` newest matching rows, newest first.
   */
  function NewestDesc(ms: seq<Message>, ch: int, after: int, limit: nat): (r: seq<Message>)
    ensures |r| <= limit
    ensures forall m :: m in r ==> m in ms && m.channel == ch && m.id > after
  {
    var l := LastN(Filter(ms, ch, after), limit);
    assert forall m :: m in l ==> m in Filter(ms, ch, after);
    Reverse(l)
  }

  /**
   * `... WHERE channel_id = ch ORDER BY id DESC LIMIT limit OFFSET offset`:
   * rows `offset .. offset + limit` of the channel counted from the newest.
   */
  function PageDesc(ms: seq<Message>, ch: int, limit: nat, offset: nat): (r: seq<Message>)
    ensures |r| <= limit
    ensures forall m :: m in r ==> m in ms && m.channel == ch
  {
    var c := InChannel(ms, ch);
    var d := Reverse(c);
    var r := d[Min(offset, |d|)..Min(offset + limit, |d|)];
    assert forall m :: m in r ==> m in c by {
      forall m | m in r ensures m in c {
        var k :| 0 <= k < |r| && r[k] == m;
        assert c[|c| - 1 - (Min(offset, |d|) + k)] == m;
      }
    }
    r
  }

  // ---------------------------------------------------------------------------
  // Lookups over the user and channel tables
  // ---------------------------------------------------------------------------

  /** `SELECT * FROM user WHERE id = id`. */
  function UserById(users: seq<User>, id: int): (r: Option<User>)
    ensures r.Some? ==> r.value in users && r.value.id == id
    ensures r.None? ==> forall u :: u in users ==> u.id != id
  {
    if users == [] then None
    else if users[0].id == id then Some(users[0])
    else UserById(users[1..], id)
  }

  /** `SELECT * FROM user WHERE name = name`. */
  function UserByName(users: seq<User>, name: string): (r: Option<User>)
    ensures r.Some? ==> r.value in users && r.value.name == name
    ensures r.None? ==> forall u :: u in users ==> u.name != name
  {
    if users == [] then None
    else if users[0].name == name then Some(users[0])
    else UserByName(users[1..], name)
  }

  predicate UniqueNames(users: seq<User>) {
    forall i, j :: 0 <= i < j < |users| ==> users[i].name != users[j].name
  }

  /** Rows of an AUTO_INCREMENT table are stored in id order. */
  predicate Increasing<T>(s: seq<T>, id: T -> int) {
    forall i, j :: 0 <= i < j < |s| ==> id(s[i]) < id(s[j])
  }

  function UserId(u: User): int { u.id }
  function ChannelId(c: Channel): int { c.id }
  function MessageId(m: Message): int { m.id }
  function ImageId(i: Image): int { i.id }

  /** Length of the leading run of rows whose id is at most `bound`. */
  function CountUpTo<T>(s: seq<T>, id: T -> int, bound: int): (k: nat)
    ensures k <= |s|
    ensures forall i :: 0 <= i < k ==> id(s[i]) <= bound
    ensures k < |s| ==> id(s[k]) > bound
  {
    if s == [] || id(s[0]) > bound then 0 else 1 + CountUpTo(s[1..], id, bound)
  }

  /**
   * `DELETE FROM t WHERE id > bound` on an id-ordered table: the rows kept
   * are exactly those with an id up to `bound`, still in order, and they
   * form a prefix of the table.
   */
  function KeepUpTo<T(!new)>(s: seq<T>, id: T -> int, bound: int): (r: seq<T>)
    ensures |r| <= |s| && r == s[..|r|]
    ensures forall x :: x in r ==> x in s && id(x) <= bound
    ensures Increasing(s, id) ==> Increasing(r, id)
    ensures Increasing(s, id) ==> forall x :: x in s && id(x) <= bound ==> x in r
  {
    var k := CountUpTo(s, id, bound);
    PrefixUpTo(s, id, bound);
    IncreasingPrefix(s, id, k);
    s[..k]
  }

  lemma PrefixUpTo<T>(s: seq<T>, id: T -> int, bound: int)
    ensures Increasing(s, id) ==>
      forall x :: x in s && id(x) <= bound ==> x in s[..CountUpTo(s, id, bound)]
  {
    var k := CountUpTo(s, id, bound);
    if Increasing(s, id) {
      forall x | x in s && id(x) <= bound
        ensures x in s[..k]
      {
        var i :| 0 <= i < |s| && s[i] == x;
      }
    }
  }

  lemma IncreasingPrefix<T>(s: seq<T>, id: T -> int, k: nat)
    requires k <= |s|
    ensures Increasing(s, id) ==> Increasing(s[..k], id)
  {
    if Increasing(s, id) {
      forall i, j | 0 <= i < j < k
        ensures id(s[..k][i]) < id(s[..k][j])
      {
        assert s[..k][i] == s[i] && s[..k][j] == s[j];
      }
    }
  }

  lemma IncreasingAppend<T>(s: seq<T>, id: T -> int, x: T)
    requires Increasing(s, id)
    requires forall i :: 0 <= i < |s| ==> id(s[i]) < id(x)
    ensures Increasing(s + [x], id)
  {
  }

  datatype Image = Image(id: int, name: string, data: seq<int>)

  /** `SELECT name, data FROM image WHERE name = name`: the first matching row. */
  function ImageByName(images: seq<Image>, name: string): (r: Option<Image>)
    ensures r.Some? ==> r.value in images && r.value.name == name
    ensures r.None? ==> forall i :: i in images ==> i.name != name
  {
    if images == [] then None
    else if images[0].name == name then Some(images[0])
    else ImageByName(images[1..], name)
  }

  // ---------------------------------------------------------------------------
  // The database
  // ---------------------------------------------------------------------------

  /** `DELETE FROM user WHERE id > bound`. */
  function KeepUsersUpTo(us: seq<User>, bound: int): seq<User> { KeepUpTo(us, UserId, bound) }
  /** `DELETE FROM channel WHERE id > bound`. */
  function KeepChannelsUpTo(cs: seq<Channel>, bound: int): seq<Channel> { KeepUpTo(cs, ChannelId, bound) }
  /** `DELETE FROM message WHERE id > bound`. */
  function KeepMessagesUpTo(ms: seq<Message>, bound: int): seq<Message> { KeepUpTo(ms, MessageId, bound) }
  /** `DELETE FROM image WHERE id > bound`. */
  function KeepImagesUpTo(ims: seq<Image>, bound: int): seq<Image> { KeepUpTo(ims, ImageId, bound) }

  lemma MessagesPruned(ms: seq<Message>, next: int, haveread: map<(int, int), int>, bound: int)
    requires MessagesValid(ms, next, haveread)
    ensures MessagesValid(KeepMessagesUpTo(ms, bound), next, map[])
  {
    assert Increasing(ms, MessageId);
    var r := KeepUpTo(ms, MessageId, bound);
    assert forall i :: 0 <= i < |r| ==> r[i] == ms[i];
  }

  lemma UsersPruned(us: seq<User>, next: int, bound: int)
    requires UsersValid(us, next)
    ensures UsersValid(KeepUsersUpTo(us, bound), next)
  {
    assert Increasing(us, UserId);
    var r := KeepUpTo(us, UserId, bound);
    assert forall i :: 0 <= i < |r| ==> r[i] == us[i];
  }

  /** Channel ids are positive, increasing and below the counter. */
  predicate ChannelsValid(cs: seq<Channel>, next: int) {
    && (forall i, j :: 0 <= i < j < |cs| ==> cs[i].id < cs[j].id)
    && next >= 1
    && (forall i :: 0 <= i < |cs| ==> 1 <= cs[i].id < next)
  }

  /** Image ids are increasing and below the counter. */
  predicate ImagesValid(ims: seq<Image>, next: int) {
    && (forall i, j :: 0 <= i < j < |ims| ==> ims[i].id < ims[j].id)
    && (forall i :: 0 <= i < |ims| ==> ims[i].id < next)
  }

  lemma ChannelsPruned(cs: seq<Channel>, next: int, bound: int)
    requires ChannelsValid(cs, next)
    ensures ChannelsValid(KeepChannelsUpTo(cs, bound), next)
  {
    assert Increasing(cs, ChannelId);
    var r := KeepUpTo(cs, ChannelId, bound);
    assert forall i :: 0 <= i < |r| ==> r[i] == cs[i];
  }

  lemma ImagesPruned(ims: seq<Image>, next: int, bound: int)
    requires ImagesValid(ims, next)
    ensures ImagesValid(KeepImagesUpTo(ims, bound), next)
  {
    assert Increasing(ims, ImageId);
    var r := KeepUpTo(ims, ImageId, bound);
    assert forall i :: 0 <= i < |r| ==> r[i] == ims[i];
  }

  /** Message ids are positive, increasing and below the counter; so are stored cursors. */
  predicate MessagesValid(ms: seq<Message>, next: int, haveread: map<(int, int), int>) {
    && IdsIncreasing(ms)
    && PositiveIds(ms)
    && next >= 1
    && (forall i :: 0 <= i < |ms| ==> ms[i].id < next)
    && (forall k :: k in haveread ==> 0 <= haveread[k] < next)
  }

  /** User names are unique (a UNIQUE key) and ids are positive, increasing and below the counter. */
  predicate UsersValid(us: seq<User>, next: int) {
    && UniqueNames(us)
    && (forall i, j :: 0 <= i < j < |us| ==> us[i].id < us[j].id)
    && next >= 1
    && (forall i :: 0 <= i < |us| ==> 1 <= us[i].id < next)
  }

  class Db {
    var users: seq<User>
    var channels: seq<Channel>
    var messages: seq<Message>
    var images: seq<Image>
    /** haveread rows: (user_id, channel_id) to message_id. */
    var haveread: map<(int, int), int>
    /** Next values of the AUTO_INCREMENT counters, which DELETE does not reset. */
    var nextUserId: int
    var nextChannelId: int
    var nextMessageId: int
    var nextImageId: int

    predicate Valid()
      reads this
    {
      && MessagesValid(messages, nextMessageId, haveread)
      && UsersValid(users, nextUserId)
      && ChannelsValid(channels, nextChannelId)
      && ImagesValid(images, nextImageId)
    }

    /** An empty database. */
    constructor ()
      ensures Valid()
      ensures users == [] && channels == [] && messages == [] && images == [] && haveread == map[]
      ensures nextUserId == 1 && nextChannelId == 1 && nextMessageId == 1 && nextImageId == 1
    {
      users := [];
      channels := [];
      messages := [];
      images := [];
      haveread := map[];
      nextUserId := 1;
      nextChannelId := 1;
      nextMessageId := 1;
      nextImageId := 1;
    }

    /**
     * The database after `GET /initialize` on `src`: every row added after
     * the seed dataset is deleted (users above 1000, channels above 10,
     * messages above 10000, images above 1001), and so is every haveread
     * row. The AUTO_INCREMENT counters keep their values.
     */
    constructor Initialized(src: Db)
      requires src.Valid()
      ensures Valid()
      ensures users == KeepUsersUpTo(src.users, 1000)
      ensures channels == KeepChannelsUpTo(src.channels, 10)
      ensures messages == KeepMessagesUpTo(src.messages, 10000)
      ensures images == KeepImagesUpTo(src.images, 1001)
      ensures haveread == map[]
      ensures nextUserId == src.nextUserId && nextChannelId == src.nextChannelId
      ensures nextMessageId == src.nextMessageId && nextImageId == src.nextImageId
    {
      MessagesPruned(src.messages, src.nextMessageId, src.haveread, 10000);
      UsersPruned(src.users, src.nextUserId, 1000);
      ChannelsPruned(src.channels, src.nextChannelId, 10);
      ImagesPruned(src.images, src.nextImageId, 1001);
      users := KeepUsersUpTo(src.users, 1000);
      channels := KeepChannelsUpTo(src.channels, 10);
      messages := KeepMessagesUpTo(src.messages, 10000);
      images := KeepImagesUpTo(src.images, 1001);
      haveread := map[];
      nextUserId := src.nextUserId;
      nextChannelId := src.nextChannelId;
      nextMessageId := src.nextMessageId;
      nextImageId := src.nextImageId;
    }

    /** `INSERT INTO message (channel_id, user_id, content, created_at) VALUES ...`. */
    method AddMessage(ch: int, user: int, content: string) returns (id: int)
      requires Valid()
      modifies this
      ensures Valid()
      ensures id == old(nextMessageId) && nextMessageId == id + 1
      ensures messages == old(messages) + [Message(id, ch, user, content)]
      ensures users == old(users) && channels == old(channels) && images == old(images)
      ensures haveread == old(haveread)
      ensures nextUserId == old(nextUserId) && nextChannelId == old(nextChannelId)
      ensures nextImageId == old(nextImageId)
    {
      id := nextMessageId;
      messages := messages + [Message(id, ch, user, content)];
      nextMessageId := nextMessageId + 1;
    }

    /**
     * `INSERT INTO haveread ... ON DUPLICATE KEY UPDATE message_id = ...`:
     * the cursor for (user, ch) becomes `id`, whatever it was. Handlers only
     * ever store 0 or the id of a message they have just read.
     */
    method UpsertHaveRead(user: int, ch: int, id: int)
      requires Valid()
      requires 0 <= id < nextMessageId
      modifies this
      ensures Valid()
      ensures haveread == old(haveread)[(user, ch) := id]
      ensures users == old(users) && channels == old(channels) && images == old(images)
      ensures messages == old(messages)
      ensures nextUserId == old(nextUserId) && nextChannelId == old(nextChannelId)
      ensures nextMessageId == old(nextMessageId) && nextImageId == old(nextImageId)
    {
      haveread := haveread[(user, ch) := id];
    }

    /**
     * `INSERT INTO user (name, salt, password, display_name, avatar_icon, ...)`
     * with `avatar_icon = 'default.png'`. The UNIQUE key on `name` rejects a
     * taken name (MySQL error 1062): None.
     */
    method AddUser(name: string, salt: string, password: string, displayName: string)
      returns (id: Option<int>)
      requires Valid()
      modifies this
      ensures Valid()
      ensures UserByName(old(users), name).Some? ==>
        id.None? && users == old(users) && nextUserId == old(nextUserId)
      ensures UserByName(old(users), name).None? ==>
        && id == Some(old(nextUserId))
        && users == old(users) + [User(old(nextUserId), name, salt, password, displayName, "default.png")]
        && nextUserId == old(nextUserId) + 1
      ensures channels == old(channels) && messages == old(messages) && images == old(images)
      ensures haveread == old(haveread)
      ensures nextChannelId == old(nextChannelId)
      ensures nextMessageId == old(nextMessageId) && nextImageId == old(nextImageId)
    {
      if UserByName(users, name).Some? {
        id := None;
      } else {
        var u := User(nextUserId, name, salt, password, displayName, "default.png");
        users := users + [u];
        nextUserId := nextUserId + 1;
        id := Some(u.id);
      }
    }

    /** `INSERT INTO channel (name, description, ...)`. */
    method AddChannel(name: string, description: string) returns (id: int)
      requires Valid()
      modifies this
      ensures Valid()
      ensures id == old(nextChannelId) && nextChannelId == id + 1
      ensures channels == old(channels) + [Channel(id, name, description)]
      ensures users == old(users) && messages == old(messages) && images == old(images)
      ensures haveread == old(haveread)
      ensures nextUserId == old(nextUserId)
      ensures nextMessageId == old(nextMessageId) && nextImageId == old(nextImageId)
    {
      id := nextChannelId;
      channels := channels + [Channel(id, name, description)];
      nextChannelId := nextChannelId + 1;
    }

    /** `INSERT INTO image (name, data) VALUES (...)`. */
    method AddImage(name: string, data: seq<int>)
      requires Valid()
      modifies this
      ensures Valid()
      ensures images == old(images) + [Image(old(nextImageId), name, data)]
      ensures nextImageId == old(nextImageId) + 1
      ensures users == old(users) && channels == old(channels) && messages == old(messages)
      ensures haveread == old(haveread)
      ensures nextUserId == old(nextUserId) && nextChannelId == old(nextChannelId)
      ensures nextMessageId == old(nextMessageId)
    {
      images := images + [Image(nextImageId, name, data)];
      nextImageId := nextImageId + 1;
    }

    /** `UPDATE user SET display_name = ... WHERE id = ...`. */
    method SetDisplayName(id: int, displayName: string)
      requires Valid()
      modifies this
      ensures Valid()
      ensures |users| == |old(users)|
      ensures forall i :: 0 <= i < |users| ==>
        users[i] == if old(users)[i].id == id then old(users)[i].(displayName := displayName) else old(users)[i]
      ensures channels == old(channels) && messages == old(messages) && images == old(images)
      ensures haveread == old(haveread)
      ensures nextUserId == old(nextUserId) && nextChannelId == old(nextChannelId)
      ensures nextMessageId == old(nextMessageId) && nextImageId == old(nextImageId)
    {
      var us := users;
      users := seq(|us|, i requires 0 <= i < |us| =>
        if us[i].id == id then us[i].(displayName := displayName) else us[i]);
    }

    /** `UPDATE user SET avatar_icon = ... WHERE id = ...`. */
    method SetAvatarIcon(id: int, avatarIcon: string)
      requires Valid()
      modifies this
      ensures Valid()
      ensures |users| == |old(users)|
      ensures forall i :: 0 <= i < |users| ==>
        users[i] == if old(users)[i].id == id then old(users)[i].(avatarIcon := avatarIcon) else old(users)[i]
      ensures channels == old(channels) && messages == old(messages) && images == old(images)
      ensures haveread == old(haveread)
      ensures nextUserId == old(nextUserId) && nextChannelId == old(nextChannelId)
      ensures nextMessageId == old(nextMessageId) && nextImageId == old(nextImageId)
    {
      var us := users;
      users := seq(|us|, i requires 0 <= i < |us| =>
        if us[i].id == id then us[i].(avatarIcon := avatarIcon) else us[i]);
    }
  }
}
