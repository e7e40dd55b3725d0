/**
 * The chat and clipboard records. User and Message are plain values here;
 * Channel, ClipboardData and ClipboardImage keep the lists their methods
 * change in place. LocalDateTime.now() is a `Timestamp` the caller passes in.
 */
module ChatModel {
  import opened Common
  import opened Lists

  type Timestamp = int

  /** A chat user; a new one is online. */
  datatype User = User(id: string, nickname: string, joinedAt: Timestamp, online: bool)

  /** The User(id, nickname) constructor. */
  function NewUser(id: string, nickname: string, now: Timestamp): (u: User)
    ensures u.id == id && u.nickname == nickname && u.online
  {
    User(id, nickname, now, true)
  }

  datatype MessageType = USER | AI | SYSTEM

  datatype Message = Message(
    id: string,
    channelId: string,
    userId: string,
    username: string,
    content: string,
    timestamp: Timestamp,
    messageType: MessageType)

  class Channel {
    var id: string
    var name: string
    var createdBy: string
    var createdAt: Timestamp
    var isPrivate: bool
    var members: seq<string>

    /** Channel(id, name, createdBy, isPrivate): no members yet. */
    constructor(id: string, name: string, createdBy: string, isPrivate: bool, now: Timestamp)
      ensures this.id == id && this.name == name && this.createdBy == createdBy
      ensures this.isPrivate == isPrivate && createdAt == now
      ensures members == []
    {
      this.id := id;
      this.name := name;
      this.createdBy := createdBy;
      this.isPrivate := isPrivate;
      createdAt := now;
      members := [];
    }

    /** setMembers installs the list as given, duplicates and all. */
    method SetMembers(list: seq<string>)
      modifies this
      ensures members == list
      ensures id == old(id) && name == old(name) && createdBy == old(createdBy)
      ensures isPrivate == old(isPrivate) && createdAt == old(createdAt)
    {
      members := list;
    }

    /** addMember appends the user at the end unless already a member. */
    method AddMember(userId: string)
      modifies this
      ensures members == AppendIfAbsent(old(members), userId)
      ensures id == old(id) && name == old(name) && createdBy == old(createdBy)
      ensures isPrivate == old(isPrivate) && createdAt == old(createdAt)
    {
      if userId !in members {
        members := members + [userId];
      }
    }
  }

  class ClipboardImage {
    var path: Option<string>
    var mimeType: Option<string>
    var keywords: Option<seq<string>>

    /** ClipboardImage(): no path or type yet, no keywords. */
    constructor Empty()
      ensures path == None && mimeType == None && keywords == Some([])
    {
      path := None;
      mimeType := None;
      keywords := Some([]);
    }

    /** ClipboardImage(path, type, keywords): a null keyword list becomes an empty one. */
    constructor(path: Option<string>, mimeType: Option<string>, keywords: Option<seq<string>>)
      ensures this.path == path && this.mimeType == mimeType
      ensures this.keywords == Some(keywords.GetOr([]))
    {
      this.path := path;
      this.mimeType := mimeType;
      this.keywords := Some(keywords.GetOr([]));
    }

    /** setKeywords may install null. */
    method SetKeywords(list: Option<seq<string>>)
      modifies this
      ensures keywords == list && path == old(path) && mimeType == old(mimeType)
    {
      keywords := list;
    }

    /** addKeyword: creates the list if it is null, then adds the keyword unless present. */
    method AddKeyword(keyword: string)
      modifies this
      ensures keywords == Some(AppendIfAbsent(old(keywords).GetOr([]), keyword))
      ensures path == old(path) && mimeType == old(mimeType)
    {
      if keywords.None? {
        keywords := Some([]);
      }
      var list := keywords.value;
      if keyword !in list {
        keywords := Some(list + [keyword]);
      }
    }
  }

  class ClipboardData {
    var text: Option<string>
    var images: Option<seq<ClipboardImage>>

    /** ClipboardData(): no text, no images. */
    constructor Empty()
      ensures text == None && images == Some([])
    {
      text := None;
      images := Some([]);
    }

    /** ClipboardData(text, images): a null image list becomes an empty one. */
    constructor(text: Option<string>, images: Option<seq<ClipboardImage>>)
      ensures this.text == text && this.images == Some(images.GetOr([]))
    {
      this.text := text;
      this.images := Some(images.GetOr([]));
    }

    /** setImages may install null. */
    method SetImages(list: Option<seq<ClipboardImage>>)
      modifies this
      ensures images == list && text == old(text)
    {
      images := list;
    }

    /** addImage: creates the list if it is null, then appends, duplicates included. */
    method AddImage(image: ClipboardImage)
      modifies this
      ensures images == Some(old(images).GetOr([]) + [image])
      ensures |images.value| == |old(images).GetOr([])| + 1
      ensures text == old(text)
    {
      if images.None? {
        images := Some([]);
      }
      images := Some(images.value + [image]);
    }
  }
}
