/**
 * The benchmark's data set (bench/src/bench/dataset.go): the users read
 * from the user list, their passwords, the 10000 initial messages, the ten
 * initial channels and the random salts of the generated rows.
 */
module Dataset {
  import opened Base
  import opened Text
  import Structure

  // ---------------------------------------------------------------------------
  // Users
  // ---------------------------------------------------------------------------

  /** reverse: the runes swapped pairwise from both ends in a rune buffer. */
  method ReverseRunes(s: string) returns (r: string)
    ensures r == Reverse(s)
  {
    var a := new char[|s|](k requires 0 <= k < |s| => s[k]);
    var i, j := 0, |s| - 1;
    while i < |s| / 2
      invariant 0 <= i <= |s| / 2 && j == |s| - 1 - i
      invariant forall k :: 0 <= k < i ==> a[k] == s[|s| - 1 - k] && a[|s| - 1 - k] == s[k]
      invariant forall k :: i <= k < |s| - i ==> a[k] == s[k]
    {
      a[i], a[j] := a[j], a[i];
      i, j := i + 1, j - 1;
    }
    r := a[..];
    forall k | 0 <= k < |s|
      ensures r[k] == s[|s| - 1 - k]
    {
      if k >= |s| - i {
        assert a[|s| - 1 - (|s| - 1 - k)] == s[|s| - 1 - k];
      }
    }
  }

  /** The first part of a joined sequence is where it starts. */
  lemma {:induction false} JoinStartsWithFirst(parts: seq<string>, c: char)
    requires |parts| >= 1
    ensures HasPrefix(Join(parts, c), parts[0])
    ensures |parts| > 1 ==> |Join(parts, c)| > |parts[0]| && Join(parts, c)[|parts[0]|] == c
  {
    if |parts| > 1 {
      assert Join(parts, c) == parts[0] + ([c] + Join(parts[1..], c));
    }
  }

  /** The user name of an address: the part before the first '@'. */
  function UserNameOf(addr: string): (name: string)
    ensures '@' !in name
    ensures HasPrefix(addr, name)
    ensures |name| < |addr| ==> addr[|name|] == '@'
  {
    var parts := Split(addr, '@');
    JoinStartsWithFirst(parts, '@');
    if |parts| == 1 then
      assert Join(parts, '@') == parts[0];
      parts[0]
    else parts[0]
  }

  /** The password of a data set user: the name followed by its reverse. */
  function Password(name: string): (p: string) {
    name + Reverse(name)
  }

  /** A password reads the same backwards and is twice as long as the name it starts with. */
  lemma PasswordIsPalindrome(name: string)
    ensures Reverse(Password(name)) == Password(name)
    ensures |Password(name)| == 2 * |name| && HasPrefix(Password(name), name)
  {
    ReverseConcat(name, Reverse(name));
    ReverseReverse(name);
  }

  /** Users up to this index play the registered users; the rest register during the run. */
  const RegisteredUsers := 1000

  /** The user of a line of the user list: the display name and the address. */
  function UserOf(line: (string, string)): Structure.AppUser {
    var name := UserNameOf(line.1);
    Structure.AppUser(name, name + Reverse(name), line.0)
  }

  /** Every data set user logs in with the password of its name, and its name holds no '@'. */
  lemma UserOfWellFormed(line: (string, string))
    ensures UserOf(line).password == Password(UserOf(line).name)
    ensures '@' !in UserOf(line).name && HasPrefix(line.1, UserOf(line).name)
  {
  }

  /** prepareUserDataSet: the first 1000 lines become Users, the rest NewUsers, both in file order. */
  method PrepareUsers(lines: seq<(string, string)>) returns (users: seq<Structure.AppUser>, newUsers: seq<Structure.AppUser>)
    ensures |users| == Min(|lines|, RegisteredUsers)
    ensures |users| + |newUsers| == |lines|
    ensures forall i :: 0 <= i < |users| ==> users[i] == UserOf(lines[i])
    ensures forall i :: 0 <= i < |newUsers| ==> newUsers[i] == UserOf(lines[RegisteredUsers + i])
  {
    users, newUsers := [], [];
    for i := 0 to |lines|
      invariant |users| == Min(i, RegisteredUsers)
      invariant |users| + |newUsers| == i
      invariant forall k :: 0 <= k < |users| ==> users[k] == UserOf(lines[k])
      invariant forall k :: 0 <= k < |newUsers| ==> newUsers[k] == UserOf(lines[RegisteredUsers + k])
    {
      var userName := UserNameOf(lines[i].1);
      var rev := ReverseRunes(userName);
      var user := Structure.AppUser(userName, userName + rev, lines[i].0);
      assert user == UserOf(lines[i]);
      if i < RegisteredUsers {
        users := users + [user];
      } else {
        newUsers := newUsers + [user];
      }
    }
  }

  // ---------------------------------------------------------------------------
  // Messages
  // ---------------------------------------------------------------------------

  const MessageCount := 10000
  const ChannelCount := 10

  /**
   * prepareMessageDataSet: 10000 messages, the i-th by user i mod n, in the
   * channel the i-th channel draw picks (1 to 10), made of the three texts
   * the text draws pick, all already delivered. There must be users and
   * texts: the source divides by their numbers.
   */
  method PrepareMessages(users: seq<Structure.AppUser>, texts: seq<string>, chanDraws: seq<nat>, textDraws: seq<nat>)
    returns (messages: seq<Structure.MessageInfo>)
    requires |users| > 0 && |texts| > 0
    requires |chanDraws| == MessageCount && forall i :: 0 <= i < |chanDraws| ==> chanDraws[i] < ChannelCount
    requires |textDraws| == 3 * MessageCount && forall i :: 0 <= i < |textDraws| ==> textDraws[i] < |texts|
    ensures |messages| == MessageCount
    ensures forall i :: 0 <= i < |messages| ==> 1 <= messages[i].channelId <= ChannelCount
    ensures forall i :: 0 <= i < |messages| ==> messages[i].channelId == chanDraws[i] + 1
    ensures forall i :: 0 <= i < |messages| ==> messages[i].userName == users[i % |users|].name
    ensures forall i :: 0 <= i < |messages| ==>
      messages[i].message == texts[textDraws[3 * i]] + texts[textDraws[3 * i + 1]] + texts[textDraws[3 * i + 2]]
    ensures forall m :: m in messages ==> m.sendComplete
  {
    messages := [];
    for i := 0 to MessageCount
      invariant |messages| == i
      invariant forall k :: 0 <= k < i ==> messages[k].channelId == chanDraws[k] + 1
      invariant forall k :: 0 <= k < i ==> messages[k].userName == users[k % |users|].name
      invariant forall k :: 0 <= k < i ==>
        messages[k].message == texts[textDraws[3 * k]] + texts[textDraws[3 * k + 1]] + texts[textDraws[3 * k + 2]]
      invariant forall m :: m in messages ==> m.sendComplete
    {
      var chanId := chanDraws[i] + 1;
      var user := users[i % |users|];
      var content := texts[textDraws[3 * i]] + texts[textDraws[3 * i + 1]] + texts[textDraws[3 * i + 2]];
      messages := messages + [Structure.MessageInfo(user.name, chanId, content, true)];
    }
  }

  /**
   * When every registered message has been delivered, as every message of
   * the data set is, the lower and the upper bound of each channel's message
   * count agree.
   */
  lemma DeliveredMessagesAreCountedExactly(
    msgMap: map<int, map<string, Structure.MessageInfo>>, msgCntMin: map<int, int>, msgCntMax: map<int, int>)
    requires Structure.CountsMatch(msgMap, msgCntMin, msgCntMax)
    requires forall c, t :: c in msgMap && t in msgMap[c] ==> msgMap[c][t].sendComplete
    ensures forall c :: Structure.Get(msgCntMin, c) == Structure.Get(msgCntMax, c)
  {
    forall c
      ensures Structure.Get(msgCntMin, c) == Structure.Get(msgCntMax, c)
    {
      if c in msgMap {
        assert Structure.Completed(msgMap[c]) == msgMap[c].Keys;
      }
    }
  }

  // ---------------------------------------------------------------------------
  // Channels
  // ---------------------------------------------------------------------------

  /** The name of initial channel n. */
  function ChannelName(n: nat): string {
    NatToString(n) + "ちゃんねる"
  }

  /** prepareChannelDataSet: channels 1 to 10, each named after its number. */
  method PrepareChannels() returns (channels: seq<Structure.Channel>)
    ensures |channels| == ChannelCount
    ensures forall i :: 0 <= i < |channels| ==> channels[i].id == i + 1
    ensures forall i :: 0 <= i < |channels| ==> channels[i].name == ChannelName(i + 1)
    ensures forall i :: 0 <= i < |channels| ==> channels[i].description == "ここは " + NatToString(i + 1) + "ちゃんねるです"
  {
    channels := [];
    for i := 0 to ChannelCount
      invariant |channels| == i
      invariant forall k :: 0 <= k < i ==> channels[k].id == k + 1
      invariant forall k :: 0 <= k < i ==> channels[k].name == ChannelName(k + 1)
      invariant forall k :: 0 <= k < i ==> channels[k].description == "ここは " + NatToString(k + 1) + "ちゃんねるです"
    {
      var c := Structure.Channel(i + 1, NatToString(i + 1) + "ちゃんねる", "ここは " + NatToString(i + 1) + "ちゃんねるです");
      channels := channels + [c];
    }
  }

  /** Different channel numbers give different names. */
  lemma ChannelNamesDistinct(a: nat, b: nat)
    requires a != b
    ensures ChannelName(a) != ChannelName(b)
  {
    if ChannelName(a) == ChannelName(b) {
      var suffix := "ちゃんねる";
      assert |NatToString(a)| == |NatToString(b)|;
      assert NatToString(a) == ChannelName(a)[..|NatToString(a)|];
      assert NatToString(b) == ChannelName(b)[..|NatToString(b)|];
      NatToStringInjective(a, b);
    }
  }

  // ---------------------------------------------------------------------------
  // Salts
  // ---------------------------------------------------------------------------

  /** The runes of a salt. */
  const SaltRunes: string := "abcdefghijklmnopqrstuvwxyzABCDEFGHIJKLMNOPQRSTUVWXYZ"

  /** genSalt: n runes, the i-th the salt rune the i-th draw picks, filled into a buffer. */
  method GenSalt(n: nat, draws: seq<nat>) returns (salt: string)
    requires |draws| >= n && ValidDraws(SaltRunes, draws)
    ensures salt == Drawn(SaltRunes, n, draws)
    ensures |salt| == n && forall i :: 0 <= i < n ==> salt[i] in SaltRunes
  {
    var b := new char[n];
    for i := 0 to n
      invariant forall k :: 0 <= k < i ==> b[k] == SaltRunes[draws[k]]
    {
      b[i] := SaltRunes[draws[i]];
    }
    salt := b[..];
  }
}
