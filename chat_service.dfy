/**
 * The in-memory chat store: users, channels and each channel's message list,
 * keyed by id. Fresh UUIDs and the current time are parameters.
 */
module ChatServices {
  import opened Common
  import opened JavaLang
  import opened ChatModel

  const GENERAL := "general"
  const AI_USER_ID := "ai-eking"
  const AI_USERNAME := "eking"
  const PRIVATE_CHANNEL_NAME := "AI Assistant (Private)"
  const WELCOME_SUFFIX := "! I'm eking, your AI assistant. You can ask me anything here or mention me with @eking in any channel."

  /** The id of a user's private assistant channel. */
  function PrivateChannelId(userId: string): (id: string)
    ensures |id| == |userId| + 8 && id[8..] == userId
  {
    "private-" + userId
  }

  /** Distinct users get distinct private channels, and none of them is the general channel. */
  lemma PrivateChannelIdInjective(a: string, b: string)
    ensures PrivateChannelId(a) == PrivateChannelId(b) ==> a == b
    ensures PrivateChannelId(a) != GENERAL
  {
    if PrivateChannelId(a) == PrivateChannelId(b) {
      assert a == PrivateChannelId(a)[8..];
    }
  }

  function WelcomeText(nickname: string): string
  {
    "Hello " + nickname + WELCOME_SUFFIX
  }

  /** The message sendAIMessage posts. */
  function AIMessage(messageId: string, channelId: string, content: string, now: Timestamp): (m: Message)
    ensures m.userId == AI_USER_ID && m.username == AI_USERNAME && m.messageType == AI
    ensures m.channelId == channelId && m.content == content
  {
    Message(messageId, channelId, AI_USER_ID, AI_USERNAME, content, now, AI)
  }

  /** The users getOnlineUsers returns. */
  function OnlineUsers(users: map<string, User>): (r: set<User>)
    ensures forall u :: u in r ==> u.online && u in users.Values
    ensures forall id :: id in users && users[id].online ==> users[id] in r
  {
    set id | id in users && users[id].online :: users[id]
  }

  /** After setUserOnline(id, b), that user is listed online iff b, and every other user is listed as before. */
  lemma SetOnlineListed(users: map<string, User>, id: string, online: bool)
    requires id in users
    ensures var updated := users[id := users[id].(online := online)];
            (updated[id] in OnlineUsers(updated) <==> online)
    ensures var updated := users[id := users[id].(online := online)];
            forall k :: k in users && k != id ==>
              (updated[k] in OnlineUsers(updated) <==> users[k] in OnlineUsers(users))
  {
    var updated := users[id := users[id].(online := online)];
    if online {
      assert updated[id] in OnlineUsers(updated);
    }
  }

  /**
   * getChannelMessages(id, limit): the list when it has at most `limit` entries,
   * else `subList(size - limit, size)` of it. The start index is an int: for a
   * negative limit it lies past the end (IllegalArgumentException) unless
   * `size - limit` wraps below zero (IndexOutOfBoundsException).
   */
  function LastMessages(messages: seq<Message>, limit: int): (r: Result<seq<Message>, JavaException>)
    requires |messages| <= INT_MAX && InIntRange(limit)
    ensures limit >= 0 ==> r.Ok?
    ensures r.Ok? ==> |r.value| == (if |messages| <= limit then |messages| else limit)
    ensures r.Ok? ==> r.value == messages[|messages| - |r.value|..]
    ensures limit < 0 ==> r.Err?
    ensures r.Err? ==> r.error.IllegalArgument? || r.error == IndexOutOfBounds
    ensures r.Err? ==> (r.error == IndexOutOfBounds <==> |messages| - limit > INT_MAX)
  {
    var size := |messages|;
    if size <= limit then Ok(messages)
    else
      var from := Wrap32(size - limit);
      if from < 0 then Err(IndexOutOfBounds)
      else if from > size then
        Err(IllegalArgument("fromIndex(" + IntToString(from) + ") > toIndex(" + IntToString(size) + ")"))
      else Ok(messages[from..])
  }

  /**
   * A limit at least the list's length returns all of it; limit 0 returns
   * nothing; Integer.MIN_VALUE wraps the start index below zero.
   */
  lemma LastMessagesBounds(messages: seq<Message>, limit: int)
    requires |messages| <= INT_MAX && InIntRange(limit)
    ensures limit >= |messages| ==> LastMessages(messages, limit) == Ok(messages)
    ensures LastMessages(messages, 0) == Ok([])
    ensures LastMessages(messages, INT_MIN) == Err(IndexOutOfBounds)
  {
  }

  class ChatService {
    var users: map<string, User>
    var channels: map<string, Channel>
    var channelMessages: map<string, seq<Message>>

    /** Every channel is stored under its own id with a message list, and every message under its channel. */
    predicate Valid()
      reads this, channels.Values
    {
      channels.Keys == channelMessages.Keys &&
      (forall k :: k in channels ==> channels[k].id == k) &&
      (forall k, m :: k in channelMessages && m in channelMessages[k] ==> m.channelId == k)
    }

    /** The private constructor: a public "general" channel with no messages, and no users. */
    constructor(now: Timestamp)
      ensures Valid()
      ensures users == map[] && channels.Keys == {GENERAL} && channelMessages == map[GENERAL := []]
      ensures fresh(channels[GENERAL]) && !channels[GENERAL].isPrivate
      ensures channels[GENERAL].name == GENERAL && channels[GENERAL].members == []
    {
      var general := new Channel(GENERAL, GENERAL, "system", false, now);
      users := map[];
      channels := map[GENERAL := general];
      channelMessages := map[GENERAL := []];
    }

    /**
     * createUser: stores the user and opens its private channel, with the user
     * as only member and the assistant's welcome as only message.
     */
    method CreateUser(nickname: string, userId: string, welcomeId: string, now: Timestamp) returns (user: User)
      requires Valid()
      modifies this
      ensures Valid()
      ensures user == NewUser(userId, nickname, now) && users == old(users)[userId := user]
      ensures var pid := PrivateChannelId(userId);
              channels.Keys == old(channels).Keys + {pid} &&
              fresh(channels[pid]) && channels[pid].isPrivate && channels[pid].members == [userId] &&
              channels[pid].name == PRIVATE_CHANNEL_NAME && channels[pid].createdBy == userId &&
              (forall k :: k in old(channels) && k != pid ==> channels[k] == old(channels)[k]) &&
              channelMessages == old(channelMessages)[pid := [AIMessage(welcomeId, pid, WelcomeText(nickname), now)]]
    {
      user := NewUser(userId, nickname, now);
      users := users[userId := user];
      var pid := PrivateChannelId(userId);
      var channel := NewPrivateChannel(userId, now);
      var welcome := AIMessage(welcomeId, pid, WelcomeText(nickname), now);
      channels := channels[pid := channel];
      channelMessages := channelMessages[pid := [welcome]];
      forall k | k in channels
        ensures channels[k].id == k
      {
        if k != pid {
          assert channels[k] == old(channels)[k];
        }
      }
      forall k, m | k in channelMessages && m in channelMessages[k]
        ensures m.channelId == k
      {
        if k != pid {
          assert channelMessages[k] == old(channelMessages)[k];
        }
      }
    }

    /** The private channel createUser opens, holding only its owner. */
    static method NewPrivateChannel(userId: string, now: Timestamp) returns (channel: Channel)
      ensures fresh(channel) && channel.id == PrivateChannelId(userId) && channel.isPrivate
      ensures channel.members == [userId] && channel.name == PRIVATE_CHANNEL_NAME && channel.createdBy == userId
    {
      channel := new Channel(PrivateChannelId(userId), PRIVATE_CHANNEL_NAME, userId, true, now);
      channel.AddMember(userId);
    }

    function OnlineUserSet(): set<User>
      reads this
    {
      OnlineUsers(users)
    }

    /** setUserOnline: changes the flag of a known user, and does nothing for an unknown id. */
    method SetUserOnline(userId: string, online: bool)
      requires Valid()
      modifies this
      ensures Valid()
      ensures userId in old(users) ==> users == old(users)[userId := old(users)[userId].(online := online)]
      ensures userId !in old(users) ==> users == old(users)
      ensures channels == old(channels) && channelMessages == old(channelMessages)
    {
      if userId in users {
        users := users[userId := users[userId].(online := online)];
      }
    }

    /** createChannel: one new public channel with an empty message list. */
    method CreateChannel(name: string, createdBy: string, channelId: string, now: Timestamp)
      returns (channel: Channel)
      requires Valid()
      modifies this
      ensures Valid()
      ensures fresh(channel) && channel.id == channelId && channel.name == name
      ensures channel.createdBy == createdBy && !channel.isPrivate && channel.members == []
      ensures channels == old(channels)[channelId := channel]
      ensures channelMessages == old(channelMessages)[channelId := []]
      ensures users == old(users)
    {
      channel := new Channel(channelId, name, createdBy, false, now);
      channels := channels[channelId := channel];
      channelMessages := channelMessages[channelId := []];
    }

    /** getUserChannels: public channels, channels listing the user, and the user's private channel. */
    function UserChannels(userId: string): (r: set<Channel>)
      reads this, channels.Values
      ensures forall c :: c in r ==> c in channels.Values
    {
      set k | k in channels &&
              (!channels[k].isPrivate || userId in channels[k].members || channels[k].id == PrivateChannelId(userId))
            :: channels[k]
    }

    /** A user sees its own private channel, and never another user's private channel it is not a member of. */
    lemma PrivateChannelVisibility(userId: string)
      requires Valid()
      ensures PrivateChannelId(userId) in channels ==> channels[PrivateChannelId(userId)] in UserChannels(userId)
      ensures forall k :: (k in channels && channels[k].isPrivate && userId !in channels[k].members &&
                           k != PrivateChannelId(userId)) ==> channels[k] !in UserChannels(userId)
    {
    }

    /** getChannelMessages(id): the channel's list, or an empty one for an unknown id. */
    function ChannelMessages(channelId: string): (r: seq<Message>)
      reads this
      ensures channelId !in channelMessages ==> r == []
      ensures Valid() ==> forall m :: m in r ==> m.channelId == channelId
    {
      if channelId in channelMessages then channelMessages[channelId] else []
    }

    /** getChannelMessages(id, limit): a suffix of the channel's list, at most `limit` long. */
    function ChannelMessagesLimited(channelId: string, limit: int): (r: Result<seq<Message>, JavaException>)
      reads this
      requires |ChannelMessages(channelId)| <= INT_MAX && InIntRange(limit)
      ensures limit >= 0 ==> r.Ok? && |r.value| <= limit
      ensures r.Ok? ==> var all := ChannelMessages(channelId);
                        |r.value| <= |all| && r.value == all[|all| - |r.value|..]
      ensures limit < 0 ==> r.Err?
    {
      LastMessages(ChannelMessages(channelId), limit)
    }

    /** Appends to a channel's list when it has one. */
    method Post(message: Message)
      requires Valid()
      modifies this
      ensures Valid()
      ensures channelMessages == if message.channelId in old(channelMessages)
                                 then old(channelMessages)[message.channelId := old(channelMessages)[message.channelId] + [message]]
                                 else old(channelMessages)
      ensures users == old(users) && channels == old(channels)
    {
      var channelId := message.channelId;
      if channelId in channelMessages {
        channelMessages := channelMessages[channelId := channelMessages[channelId] + [message]];
      }
    }

    /**
     * sendMessage: None (null) for an unknown user, with nothing changed;
     * otherwise a USER message under the user's nickname, appended when the
     * channel has a list.
     */
    method SendMessage(channelId: string, userId: string, content: string, messageId: string, now: Timestamp)
      returns (message: Option<Message>)
      requires Valid()
      modifies this
      ensures Valid()
      ensures userId !in old(users) ==> message == None && channelMessages == old(channelMessages)
      ensures userId in old(users) ==>
                message == Some(Message(messageId, channelId, userId, old(users)[userId].nickname, content, now, USER)) &&
                channelMessages == if channelId in old(channelMessages)
                                   then old(channelMessages)[channelId := old(channelMessages)[channelId] + [message.value]]
                                   else old(channelMessages)
      ensures users == old(users) && channels == old(channels)
    {
      if userId !in users {
        return None;
      }
      var m := Message(messageId, channelId, userId, users[userId].nickname, content, now, USER);
      Post(m);
      message := Some(m);
    }

    /** sendAIMessage: always returns the assistant's message, appended when the channel has a list. */
    method SendAIMessage(channelId: string, content: string, messageId: string, now: Timestamp)
      returns (message: Message)
      requires Valid()
      modifies this
      ensures Valid()
      ensures message == AIMessage(messageId, channelId, content, now)
      ensures channelMessages == if channelId in old(channelMessages)
                                 then old(channelMessages)[channelId := old(channelMessages)[channelId] + [message]]
                                 else old(channelMessages)
      ensures users == old(users) && channels == old(channels)
    {
      message := AIMessage(messageId, channelId, content, now);
      Post(message);
    }
  }
}
